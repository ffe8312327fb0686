/** What a collection request asks for: every query option told from the text a
    client wrote, and every property told from the row it comes from. */
module PagingQuery {
  import opened Strings
  import opened QueryText
  import opened Paging

  // The number as a client writes it, anything else, or nothing.
  predicate Writes(text: string, n: nat) {
    n <= MAX_INT && text == Itoa(n)
  }

  lemma {:induction false} NegativeIsRead(n: nat)
    requires n <= MAX_INT
    ensures Atoi("-" + Itoa(n)).Some? && Atoi("-" + Itoa(n)).value + n == 0
  {
    DigitsItoa(n);
    assert ("-" + Itoa(n))[1..] == Itoa(n);
  }

  // $top is the page size, one hundred when it is missing, malformed or not
  // positive, and never more than 999.
  lemma TopMeaning(v: Values)
    ensures forall n: nat :: Writes(Get(v, "$top"), n) ==> Top(v) == if n == 0 then 100 else if n <= 999 then n else 999
    ensures forall n: nat :: n <= MAX_INT && Get(v, "$top") == "-" + Itoa(n) ==> Top(v) == 100
    ensures Atoi(Get(v, "$top")).None? ==> Top(v) == 100
    ensures "$top" !in v ==> Top(v) == 100
  {
    forall n: nat | Writes(Get(v, "$top"), n)
      ensures Top(v) == if n == 0 then 100 else if n <= 999 then n else 999
    {
      AtoiItoa(n);
    }
    forall n: nat | n <= MAX_INT && Get(v, "$top") == "-" + Itoa(n)
      ensures Top(v) == 100
    {
      NegativeIsRead(n);
    }
  }

  // $skiptoken is how many rows come first, none when it is missing, malformed
  // or not positive.
  lemma SkipMeaning(v: Values)
    ensures forall n: nat :: Writes(Get(v, "$skiptoken"), n) ==> Skip(v) == n
    ensures forall n: nat :: n <= MAX_INT && Get(v, "$skiptoken") == "-" + Itoa(n) ==> Skip(v) == 0
    ensures Atoi(Get(v, "$skiptoken")).None? ==> Skip(v) == 0
    ensures "$skiptoken" !in v ==> Skip(v) == 0
  {
    forall n: nat | Writes(Get(v, "$skiptoken"), n)
      ensures Skip(v) == n
    {
      AtoiItoa(n);
    }
    forall n: nat | n <= MAX_INT && Get(v, "$skiptoken") == "-" + Itoa(n)
      ensures Skip(v) == 0
    {
      NegativeIsRead(n);
    }
  }

  // A name as $select can carry it.
  predicate Plain(name: string) {
    name != "" && ',' !in name && !IsSpace(name[0]) && !IsSpace(name[|name| - 1])
  }

  // The parts are the names, in order, with blanks around them.
  ghost predicate Spaced(parts: seq<string>, names: seq<string>) {
    && |parts| == |names|
    && forall i :: 0 <= i < |parts| ==> ',' !in parts[i] && Plain(names[i]) && TrimSpace(parts[i]) == names[i]
  }

  lemma {:induction false} FieldsOfSpaced(parts: seq<string>, names: seq<string>)
    requires Spaced(parts, names)
    ensures Fields(parts) == names
  {
    if parts != [] {
      var n := |parts| - 1;
      FieldsOfSpaced(parts[..n], names[..n]);
      assert names == names[..n] + [names[n]];
    }
  }

  // What the options ask for: $select the listed names in their order, $filter
  // what the grammar makes of its text, $count the word true in any case.
  lemma QueryMeaning<V>(v: Values, grammar: string -> Option<Shape<V> -> bool>, parts: seq<string>, names: seq<string>)
    requires parts != [] && Spaced(parts, names)
    ensures var text, r := TrimSpace(Get(v, "$filter")), ParseOData(v, grammar);
            && (r.None? <==> text != "" && grammar(text).None?)
            && (r.Some? ==>
                  && r.value.filter == (if text == "" then None else grammar(text))
                  && r.value.top == Top(v) && r.value.skip == Skip(v)
                  && (r.value.count <==> ToLower(Get(v, "$count")) == "true")
                  && (Get(v, "$select") == "" ==> r.value.select == [])
                  && (Get(v, "$select") == Join(parts, ',') ==> r.value.select == names))
  {
    SplitJoin(parts, ',');
    FieldsOfSpaced(parts, names);
    assert parts[0] != "";
    JoinNotEmpty(parts);
    assert ToLower("true") == "true";
    hide Fields, Split, Top, Skip, TrimSpace, Join, Spaced;
  }

  lemma JoinNotEmpty(parts: seq<string>)
    requires parts != [] && parts[0] != ""
    ensures Join(parts, ',') != ""
  {}

  // ---- Properties ----

  // A selection keeps the named properties, in any case, with their own names
  // and values; selecting nothing keeps them all.
  lemma SelectedMeaning<V>(shape: Shape<V>, fields: seq<string>, k: string)
    ensures k in Selected(shape, fields) <==>
              k in shape && (fields == [] || exists i :: 0 <= i < |fields| && EqualFold(fields[i], k))
    ensures k in Selected(shape, fields) ==> Selected(shape, fields)[k] == shape[k]
  {}

  // Without a selection a user shows eleven properties and its annotations.
  lemma DefaultMeaning<V>(v: Values, shape: Shape<V>, k: string)
    ensures k in DefaultProjection(v, shape) <==>
              k in shape
              && (TrimSpace(Get(v, "$select")) != "" || HasPrefix(k, "@odata.")
                  || k in {"businessPhones", "displayName", "givenName", "id", "jobTitle", "mail", "mobilePhone",
                           "officeLocation", "preferredLanguage", "surname", "userPrincipalName"})
    ensures k in DefaultProjection(v, shape) ==> DefaultProjection(v, shape)[k] == shape[k]
  {
    hide TrimSpace, HasPrefix, Get;
  }

  // A row of users is projected first and selected from afterwards.
  lemma RowMeaning<V>(v: Values, users: bool, q: Query<V>, shape: Shape<V>, k: string)
    ensures k in Shaped(v, users, q, shape) <==>
              && k in shape && (users ==> k in DefaultProjection(v, shape))
              && (q.select == [] || exists i :: 0 <= i < |q.select| && EqualFold(q.select[i], k))
    ensures k in Shaped(v, users, q, shape) ==> Shaped(v, users, q, shape)[k] == shape[k]
  {
    SelectedMeaning(if users then DefaultProjection(v, shape) else shape, q.select, k);
    DefaultMeaning(v, shape, k);
    hide Selected, DefaultProjection;
  }
}
