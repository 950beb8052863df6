/** The filter that takes prefixed models out of a model list. */
module ModelListing {
  import opened Text

  /** A list entry. Its id or name is None when it is missing or not a string; rest
      stands for everything else about the entry. */
  datatype Entry =
    | Model(id: Option<string>, name: Option<string>, rest: nat)
    | NotAnObject(rest: nat)

  datatype Field = Entries(entries: seq<Entry>) | NotAList(rest: nat)

  datatype Body = Object(fields: map<string, Field>) | NoObject(rest: nat)

  /** The value, without one leading "models/", starts with a configured prefix. */
  predicate Carries(value: string, prefixes: seq<string>) {
    exists p | p in prefixes :: p != "" && HasPrefix(TrimPrefix(TrimSpace(value), "models/"), p)
  }

  predicate IsPrefixed(entry: Entry, prefixes: seq<string>) {
    && entry.Model?
    && (|| (entry.id.Some? && Carries(entry.id.value, prefixes))
        || (entry.name.Some? && Carries(entry.name.value, prefixes)))
  }

  function Shown(entries: seq<Entry>, prefixes: seq<string>): seq<Entry> {
    Select(entries, e => !IsPrefixed(e, prefixes))
  }

  const LIST_FIELDS := ["data", "models"]

  function FilteredField(field: Field, prefixes: seq<string>): Field {
    if field.Entries? then Entries(Shown(field.entries, prefixes)) else field
  }

  function Filtered(body: Body, prefixes: seq<string>): Body {
    if body.NoObject? then body else
    Object(map f | f in body.fields ::
      if f in LIST_FIELDS then FilteredField(body.fields[f], prefixes) else body.fields[f])
  }

  predicate Drops(field: Field, prefixes: seq<string>) {
    field.Entries? && exists e | e in field.entries :: IsPrefixed(e, prefixes)
  }

  /** Some list holds an entry that is to be dropped. */
  predicate Affected(body: Body, prefixes: seq<string>) {
    body.Object? && exists f | f in LIST_FIELDS :: f in body.fields && Drops(body.fields[f], prefixes)
  }

  method FilterEntries(entries: seq<Entry>, prefixes: seq<string>) returns (shown: seq<Entry>, changed: bool)
    ensures shown == Shown(entries, prefixes)
    ensures changed <==> exists e | e in entries :: IsPrefixed(e, prefixes)
  {
    hide IsPrefixed;
    shown, changed := [], false;
    for n := 0 to |entries|
      invariant shown == Shown(entries[..n], prefixes)
      invariant changed <==> exists e | e in entries[..n] :: IsPrefixed(e, prefixes)
    {
      assert entries[..n + 1] == entries[..n] + [entries[n]];
      assert entries[..n + 1][..n] == entries[..n];
      if IsPrefixed(entries[n], prefixes) {
        changed := true;
      } else {
        shown := shown + [entries[n]];
      }
    }
    assert entries[..|entries|] == entries;
  }

  /** The body as found, or a rewritten one; changed exactly when an entry was dropped. */
  method RemovePrefixedModelEntries(body: Body, prefixes: seq<string>) returns (r: Body, changed: bool)
    ensures r == Filtered(body, prefixes)
    ensures changed <==> Affected(body, prefixes)
  {
    hide IsPrefixed, Shown;
    if prefixes == [] {
      NothingToDrop(body);
      return body, false;
    }
    if body.NoObject? {
      return body, false;
    }
    var fields := body.fields;
    changed := false;
    for i := 0 to |LIST_FIELDS|
      invariant fields.Keys == body.fields.Keys
      invariant forall f | f in fields ::
                  fields[f] == (if f in LIST_FIELDS[..i] then FilteredField(body.fields[f], prefixes) else body.fields[f])
      invariant changed <==> exists f | f in LIST_FIELDS[..i] :: f in body.fields && Drops(body.fields[f], prefixes)
    {
      var f := LIST_FIELDS[i];
      assert LIST_FIELDS[..i + 1] == LIST_FIELDS[..i] + [f] && f !in LIST_FIELDS[..i];
      if f in fields && fields[f].Entries? {
        var shown, fieldChanged := FilterEntries(fields[f].entries, prefixes);
        KeptWhole(fields[f], prefixes);
        if fieldChanged {
          fields := fields[f := Entries(shown)];
          changed := true;
        }
      }
    }
    assert LIST_FIELDS[..|LIST_FIELDS|] == LIST_FIELDS;
    r := Object(fields);
  }

  // ---------------------------------------------------------------- what the filter does

  /** A client would see this prefix in the text: in front, or behind one "models/". */
  predicate ShowsPrefix(value: string, p: string) {
    var t := TrimSpace(value);
    p != "" && (("models/" + p) <= t || (p <= t && !("models/" <= t)))
  }

  lemma CarriesExactly(value: string, prefixes: seq<string>)
    ensures Carries(value, prefixes) <==> exists p | p in prefixes :: ShowsPrefix(value, p)
  {
    var t := TrimSpace(value);
    hide TrimSpace;
    forall p
      ensures HasPrefix(TrimPrefix(t, "models/"), p) <==> ("models/" + p) <= t || (p <= t && !("models/" <= t))
    {
      BehindModels(t, "models/", p);
    }
  }

  lemma BehindModels(t: string, left: string, p: string)
    ensures HasPrefix(TrimPrefix(t, left), p) <==> (left + p) <= t || (p <= t && !(left <= t))
  {
    if left <= t {
      assert t == left + TrimPrefix(t, left);
      if p <= TrimPrefix(t, left) {
        assert t == left + p + TrimPrefix(t, left)[|p|..];
      }
      if (left + p) <= t {
        assert TrimPrefix(t, left)[..|p|] == t[|left|..][..|p|] == p;
      }
    }
  }

  /** Its id or its name shows a prefix, whichever of them it has. */
  predicate ShowsAny(entry: Entry, prefixes: seq<string>) {
    entry.Model? && exists p | p in prefixes ::
      || (entry.id.Some? && ShowsPrefix(entry.id.value, p))
      || (entry.name.Some? && ShowsPrefix(entry.name.value, p))
  }

  /** An entry stays exactly when neither its id nor its name shows a configured prefix;
      entries without either, or that are no objects, stay. */
  lemma StaysExactly(entries: seq<Entry>, prefixes: seq<string>, entry: Entry)
    ensures entry in Shown(entries, prefixes) <==> entry in entries && !ShowsAny(entry, prefixes)
  {
    hide Carries, ShowsPrefix;
    if entry.Model? {
      if entry.id.Some? {
        CarriesExactly(entry.id.value, prefixes);
      }
      if entry.name.Some? {
        CarriesExactly(entry.name.value, prefixes);
      }
    }
  }

  /** Nothing else of a body changes: only lists under "data" and "models" are filtered. */
  lemma OnlyListsChange(body: Body, prefixes: seq<string>, f: string)
    requires body.Object? && f in body.fields
    ensures var r := Filtered(body, prefixes);
            && r.Object? && r.fields.Keys == body.fields.Keys
            && if (f == "data" || f == "models") && body.fields[f].Entries?
               then r.fields[f] == Entries(Shown(body.fields[f].entries, prefixes))
               else r.fields[f] == body.fields[f]
  {
    hide Shown;
  }

  lemma NoObjectStays(body: Body, prefixes: seq<string>)
    requires body.NoObject?
    ensures Filtered(body, prefixes) == body
  {
  }

  /** Nothing dropped, nothing changed; something dropped, the list is shorter. */
  lemma {:induction false} ShownLength(entries: seq<Entry>, prefixes: seq<string>)
    ensures if exists e | e in entries :: IsPrefixed(e, prefixes)
            then |Shown(entries, prefixes)| < |entries| else Shown(entries, prefixes) == entries
  {
    hide IsPrefixed;
    if entries != [] {
      var n := |entries| - 1;
      ShownLength(entries[..n], prefixes);
      assert entries == entries[..n] + [entries[n]];
    }
  }

  lemma KeptWhole(field: Field, prefixes: seq<string>)
    ensures FilteredField(field, prefixes) != field <==> Drops(field, prefixes)
  {
    hide IsPrefixed;
    if field.Entries? {
      ShownLength(field.entries, prefixes);
    }
  }

  lemma NothingToDrop(body: Body)
    ensures Filtered(body, []) == body && !Affected(body, [])
  {
    if body.Object? {
      forall f | f in body.fields
        ensures !Drops(body.fields[f], []) && FilteredField(body.fields[f], []) == body.fields[f]
      {
        KeptWhole(body.fields[f], []);
      }
    }
  }

  /** A change is reported exactly when the body differs. */
  lemma ChangedExactlyWhenDropped(body: Body, prefixes: seq<string>)
    ensures Filtered(body, prefixes) != body <==> Affected(body, prefixes)
  {
    hide FilteredField, Drops;
    if body.Object? {
      forall f | f in body.fields
        ensures FilteredField(body.fields[f], prefixes) != body.fields[f] <==> Drops(body.fields[f], prefixes)
      {
        KeptWhole(body.fields[f], prefixes);
      }
      var g := Filtered(body, prefixes).fields;
      if Affected(body, prefixes) {
        var f :| f in LIST_FIELDS && f in body.fields && Drops(body.fields[f], prefixes);
        assert g[f] != body.fields[f];
      } else {
        assert g == body.fields;
      }
    }
  }

  /** A second pass finds nothing to do. */
  lemma FilteringTwice(body: Body, prefixes: seq<string>)
    ensures !Affected(Filtered(body, prefixes), prefixes)
    ensures Filtered(Filtered(body, prefixes), prefixes) == Filtered(body, prefixes)
  {
    ChangedExactlyWhenDropped(Filtered(body, prefixes), prefixes);
    hide IsPrefixed;
  }

  predicate Increasing(at: seq<nat>, bound: nat) {
    && (forall i | 0 <= i < |at| :: at[i] < bound)
    && (forall i, j | 0 <= i < j < |at| :: at[i] < at[j])
  }

  /** Where the entries that are shown stand in the list. */
  function ShownAt(entries: seq<Entry>, prefixes: seq<string>): (at: seq<nat>)
    ensures Increasing(at, |entries|)
  {
    if entries == [] then [] else
    ShownAt(entries[..|entries| - 1], prefixes)
    + if IsPrefixed(entries[|entries| - 1], prefixes) then [] else [|entries| - 1]
  }

  /** The list that is shown is a sublist of the original, in its order. */
  lemma {:induction false} ShownIsSublist(entries: seq<Entry>, prefixes: seq<string>)
    ensures var at := ShownAt(entries, prefixes);
            && |Shown(entries, prefixes)| == |at|
            && forall i | 0 <= i < |at| :: Shown(entries, prefixes)[i] == entries[at[i]]
  {
    hide IsPrefixed;
    if entries != [] {
      ShownIsSublist(entries[..|entries| - 1], prefixes);
    }
  }

  /** Exactly the positions of prefixed entries are missing. */
  lemma {:induction false} MissingArePrefixed(entries: seq<Entry>, prefixes: seq<string>, k: nat)
    requires k < |entries|
    ensures k !in ShownAt(entries, prefixes) <==> IsPrefixed(entries[k], prefixes)
  {
    hide IsPrefixed;
    var n := |entries| - 1;
    assert Increasing(ShownAt(entries[..n], prefixes), n);
    if k < n {
      MissingArePrefixed(entries[..n], prefixes, k);
    }
  }
}
