/** `normalizeRejectionDetails` of packages/core/src/rejection-details.ts. */
module RejectionDetails {
  import opened Results
  import opened Hosts
  import opened Formats
  import CodeUnits
  import Utf8

  const MAX_ENCODED_BYTES := 4096
  const MAX_FIELD_PATHS := 32
  const MAX_FIELD_PATH_LENGTH := 160
  const MAX_TOKEN_LENGTH := 96
  const MAX_REFERENCES := 16
  const MAX_REFERENCE_KEY_LENGTH := 64
  const MAX_REFERENCE_VALUE_BYTES := 256

  function FieldPaths(): string { "fieldPaths" }

  function Reason(): string { "reason" }

  function RequiredAction(): string { "requiredAction" }

  function References(): string { "references" }

  lemma MemberNamesDiffer()
    ensures References() != FieldPaths() && References() != Reason() && References() != RequiredAction()
  {
    assert References()[2] != FieldPaths()[2];
  }

  // ----- Member syntax ---------------------------------------------------------------------

  predicate IsLower(c: char) { 'a' <= c <= 'z' || '0' <= c <= '9' }

  predicate IsSeparator(c: char) { c == '.' || c == '_' || c == '-' }

  /** The rest of a token from `i` on; after a separator a letter or digit must come. */
  predicate TokenFrom(s: string, i: nat, afterSeparator: bool)
    requires i <= |s|
    decreases |s| - i
  {
    if i == |s| then !afterSeparator
    else if IsLower(s[i]) then TokenFrom(s, i + 1, false)
    else IsSeparator(s[i]) && !afterSeparator && TokenFrom(s, i + 1, true)
  }

  /** `[a-z][a-z0-9]*([._-][a-z0-9]+)*`. */
  predicate IsToken(s: string) { s != [] && 'a' <= s[0] <= 'z' && TokenFrom(s, 1, false) }

  predicate StartsName(c: char) { 'a' <= c <= 'z' || 'A' <= c <= 'Z' || c == '_' }

  predicate PathFrom(s: string, i: nat, atStart: bool)
    requires i <= |s|
    decreases |s| - i
  {
    if i == |s| then !atStart
    else if StartsName(s[i]) || (!atStart && '0' <= s[i] <= '9') then PathFrom(s, i + 1, false)
    else s[i] == '.' && !atStart && PathFrom(s, i + 1, true)
  }

  /** Names joined by dots. */
  predicate IsFieldPath(s: string) { PathFrom(s, 0, true) }

  predicate IsControl(c: char) { c as int <= 0x1F || 0x7F <= c as int <= 0x9F }

  /** White space and line terminators, as `trim` strips them. */
  predicate IsSpace(c: char) {
    var n := c as int;
    0x09 <= n <= 0x0D || n == 0x20 || n == 0xA0 || n == 0x1680 || 0x2000 <= n <= 0x200A
    || n == 0x2028 || n == 0x2029 || n == 0x202F || n == 0x205F || n == 0x3000 || n == 0xFEFF
  }

  predicate IsTrimmed(s: string) { s != [] ==> !IsSpace(s[0]) && !IsSpace(s[|s| - 1]) }

  function Length(s: string): nat { |CodeUnits.Units(s)| }

  predicate StableToken(v: Json, maxLength: nat) {
    v.JString? && Length(v.s) <= maxLength && IsToken(v.s)
  }

  predicate SafePath(v: Json) {
    v.JString? && Length(v.s) <= MAX_FIELD_PATH_LENGTH && IsFieldPath(v.s)
  }

  predicate SafeReference(v: Json) {
    && v.JString? && v.s != []
    && |Utf8.Encode(v.s)| <= MAX_REFERENCE_VALUE_BYTES
    && IsTrimmed(v.s)
    && forall i :: 0 <= i < |v.s| ==> !IsControl(v.s[i])
  }

  predicate SafePaths(v: Json) {
    && v.JArray? && 1 <= |v.items| <= MAX_FIELD_PATHS
    && (forall i :: 0 <= i < |v.items| ==> SafePath(v.items[i]))
    && (forall i, j :: 0 <= i < j < |v.items| ==> v.items[i] != v.items[j])
  }

  predicate SafeReferences(v: Json) {
    && v.JObject?
    && var m := FromEntries(v.members);
    && 1 <= |m| <= MAX_REFERENCES
    && forall key :: key in m ==> StableToken(JString(key), MAX_REFERENCE_KEY_LENGTH) && SafeReference(m[key])
  }

  // ----- The normal form ---------------------------------------------------------------------

  function SortedMembers(v: Json): Json {
    if v.JObject? then JObject(Entries(FromEntries(v.members))) else v
  }

  function Maybe(key: string, m: map<string, Json>): seq<(string, Json)> {
    if key in m then [(key, m[key])] else []
  }

  predicate Allowed(m: map<string, Json>) {
    forall key :: key in m ==> key == FieldPaths() || key == Reason() || key == RequiredAction() || key == References()
  }

  predicate SafeMembers(m: map<string, Json>) { m != map[] && Allowed(m) && SafeParts(m) }

  predicate SafeParts(m: map<string, Json>) {
    && (FieldPaths() in m ==> SafePaths(m[FieldPaths()]))
    && (Reason() in m ==> StableToken(m[Reason()], MAX_TOKEN_LENGTH))
    && (RequiredAction() in m ==> StableToken(m[RequiredAction()], MAX_TOKEN_LENGTH))
    && (References() in m ==> SafeReferences(m[References()]))
  }

  /** The members with the references sorted by key. */
  function Tidy(m: map<string, Json>): map<string, Json> {
    if References() in m then m[References() := SortedMembers(m[References()])] else m
  }

  function InOrder(m: map<string, Json>): seq<(string, Json)> {
    Maybe(FieldPaths(), m) + Maybe(Reason(), m) + Maybe(RequiredAction(), m) + Maybe(References(), m)
  }

  function EncodedSize(host: Host, v: Json): nat { |Utf8.Encode(host.jsonStringify(v))| }

  /** The normalized details, or nothing where the code throws. */
  function Normalize(host: Host, v: Json): Option<Json> {
    if !v.JObject? then None
    else
      var m := FromEntries(v.members);
      var d := JObject(InOrder(Tidy(m)));
      if SafeMembers(m) && EncodedSize(host, d) <= MAX_ENCODED_BYTES then Some(d) else None
  }

  function Single(key: string, m: map<string, Json>): map<string, Json> {
    if key in m then map[key := m[key]] else map[]
  }

  lemma MaybeLookup(key: string, m: map<string, Json>)
    ensures FromEntries(Maybe(key, m)) == Single(key, m)
  {
    if key in m {
      assert Maybe(key, m)[1..] == [];
    }
  }

  lemma SinglesCover(m: map<string, Json>)
    requires Allowed(m)
    ensures Single(FieldPaths(), m) + Single(Reason(), m) + Single(RequiredAction(), m) + Single(References(), m) == m
  {
    hide FieldPaths, Reason, RequiredAction, References;
  }

  lemma InOrderLookup(m: map<string, Json>)
    requires Allowed(m)
    ensures FromEntries(InOrder(m)) == m
  {
    hide FromEntries, Maybe, Single, FieldPaths, Reason, RequiredAction, References;
    var a, b, c, d := Maybe(FieldPaths(), m), Maybe(Reason(), m), Maybe(RequiredAction(), m), Maybe(References(), m);
    FromEntriesConcat(a + b + c, d);
    FromEntriesConcat(a + b, c);
    FromEntriesConcat(a, b);
    SinglesCover(m);
    MaybeLookup(FieldPaths(), m);
    MaybeLookup(Reason(), m);
    MaybeLookup(RequiredAction(), m);
    MaybeLookup(References(), m);
  }

  lemma {:induction false} FromEntriesConcat<V>(a: seq<(string, V)>, b: seq<(string, V)>)
    ensures FromEntries(a + b) == FromEntries(a) + FromEntries(b)
  {
    if a == [] {
      assert a + b == b;
    } else {
      assert (a + b)[1..] == a[1..] + b;
      FromEntriesConcat(a[1..], b);
      var h := map[a[0].0 := a[0].1];
      assert h + (FromEntries(a[1..]) + FromEntries(b)) == (h + FromEntries(a[1..])) + FromEntries(b);
    }
  }

  lemma SortedMembersFixed(v: Json)
    requires v.JObject?
    ensures FromEntries(SortedMembers(v).members) == FromEntries(v.members)
    ensures SortedMembers(SortedMembers(v)) == SortedMembers(v)
    ensures AscendingKeys(SortedMembers(v).members)
  {
    FromEntriesOfEntries(FromEntries(v.members));
  }

  lemma SortedStaysSafe(v: Json)
    requires SafeReferences(v)
    ensures SafeReferences(SortedMembers(v))
  {
    hide StableToken, SafeReference, FromEntries, Entries;
    SortedMembersFixed(v);
  }

  /** Tidying touches the references only. */
  lemma TidyMembers(m: map<string, Json>)
    ensures Tidy(m).Keys == m.Keys
    ensures forall key :: key in m && key != References() ==> Tidy(m)[key] == m[key]
    ensures References() in m ==> Tidy(m)[References()] == SortedMembers(m[References()])
  {
    hide SortedMembers, References;
  }

  lemma TidySafe(m: map<string, Json>)
    requires SafeMembers(m)
    ensures SafeMembers(Tidy(m)) && Tidy(Tidy(m)) == Tidy(m) && Allowed(Tidy(m))
    ensures References() in Tidy(m) ==> Tidy(m)[References()].JObject? && AscendingKeys(Tidy(m)[References()].members)
  {
    hide SafePaths, StableToken, SafeReferences, SortedMembers, Tidy, FieldPaths, Reason, RequiredAction, References, AscendingKeys;
    MemberNamesDiffer();
    TidyMembers(m);
    TidyMembers(Tidy(m));
    if References() in m {
      var v := m[References()];
      ReferencesAreObject(v);
      SortedMembersFixed(v);
      SortedStaysSafe(v);
    }
    assert Tidy(Tidy(m)) == Tidy(m);
  }

  lemma ReferencesAreObject(v: Json)
    ensures SafeReferences(v) ==> v.JObject? && SortedMembers(v).JObject?
  {
  }

  /** Normalizing a second time changes nothing. */
  lemma NormalizeIdempotent(host: Host, v: Json)
    requires Normalize(host, v).Some?
    ensures Normalize(host, Normalize(host, v).value) == Normalize(host, v)
  {
    hide FromEntries, SafeMembers, Tidy, InOrder;
    var m := FromEntries(v.members);
    TidySafe(m);
    InOrderLookup(Tidy(m));
  }

  /** What a host may rely on in normalized details. */
  lemma NormalForm(host: Host, v: Json)
    requires Normalize(host, v).Some?
    ensures var d := Normalize(host, v).value;
            var m := FromEntries(d.members);
            && d.JObject? && d.members == InOrder(m) && SafeMembers(m)
            && EncodedSize(host, d) <= MAX_ENCODED_BYTES
            && (References() in m ==> m[References()].JObject? && AscendingKeys(m[References()].members))
  {
    hide FromEntries, SafeMembers, Tidy, InOrder;
    var m := FromEntries(v.members);
    TidySafe(m);
    InOrderLookup(Tidy(m));
  }

  // ----- The code, step by step ----------------------------------------------------------------

  method ClonePaths(v: Json) returns (r: Option<Json>)
    ensures r == if SafePaths(v) then Some(v) else None
  {
    hide SafePath;
    if !v.JArray? || |v.items| == 0 || |v.items| > MAX_FIELD_PATHS { return None; }
    var paths: seq<Json> := [];
    var seen: set<Json> := {};
    for i := 0 to |v.items|
      invariant paths == v.items[..i]
      invariant forall x :: x in seen <==> x in paths
      invariant forall j :: 0 <= j < i ==> SafePath(v.items[j])
      invariant forall j, k :: 0 <= j < k < i ==> v.items[j] != v.items[k]
    {
      if !SafePath(v.items[i]) { return None; }
      if v.items[i] in seen {
        var j :| 0 <= j < i && v.items[j] == v.items[i];
        return None;
      }
      seen := seen + {v.items[i]};
      paths := paths + [v.items[i]];
      assert v.items[..i + 1] == v.items[..i] + [v.items[i]];
    }
    assert v.items[..|v.items|] == v.items;
    return Some(JArray(paths));
  }

  predicate SafeEntry(e: (string, Json)) {
    StableToken(JString(e.0), MAX_REFERENCE_KEY_LENGTH) && SafeReference(e.1)
  }

  lemma SafeEntries(m: map<string, Json>)
    ensures (forall key :: key in m ==> SafeEntry((key, m[key]))) <==> forall i :: 0 <= i < |Entries(m)| ==> SafeEntry(Entries(m)[i])
  {
    hide SafeEntry;
    forall key | key in m
      ensures exists i :: 0 <= i < |Entries(m)| && Entries(m)[i] == (key, m[key])
    {
      var i := EntriesHaveKeys(m, key);
      assert Entries(m)[i] == (key, m[key]);
    }
  }

  lemma ReferencesByEntries(v: Json, es: seq<(string, Json)>)
    requires v.JObject? && es == Entries(FromEntries(v.members))
    ensures SafeReferences(v) <==> 1 <= |es| <= MAX_REFERENCES && forall i :: 0 <= i < |es| ==> SafeEntry(es[i])
    ensures SortedMembers(v) == JObject(es)
  {
    hide StableToken, SafeReference, FromEntries;
    var m := FromEntries(v.members);
    SafeEntries(m);
    assert (forall key :: key in m ==> SafeEntry((key, m[key])))
      <==> forall key :: key in m ==> StableToken(JString(key), MAX_REFERENCE_KEY_LENGTH) && SafeReference(m[key]);
  }

  method CloneEntries(entries: seq<(string, Json)>) returns (r: Option<seq<(string, Json)>>)
    ensures r == if forall i :: 0 <= i < |entries| ==> SafeEntry(entries[i]) then Some(entries) else None
  {
    hide SafeEntry;
    var safe: seq<(string, Json)> := [];
    for i := 0 to |entries|
      invariant safe == entries[..i]
      invariant forall j :: 0 <= j < i ==> SafeEntry(entries[j])
    {
      if !SafeEntry(entries[i]) { return None; }
      safe := safe + [entries[i]];
    }
    assert entries[..|entries|] == entries;
    return Some(safe);
  }

  method SortReferences(v: Json) returns (r: Option<Json>)
    ensures r == if SafeReferences(v) then Some(SortedMembers(v)) else None
  {
    hide SafeEntry, SafeReferences, SortedMembers, FromEntries, Entries;
    if !v.JObject? {
      NoReferences(v);
      return None;
    }
    var entries := Entries(FromEntries(v.members));
    ReferencesByEntries(v, entries);
    if |entries| == 0 || |entries| > MAX_REFERENCES { return None; }
    var safe := CloneEntries(entries);
    if safe.None? { return None; }
    return Some(JObject(safe.value));
  }

  lemma NoReferences(v: Json)
    requires !v.JObject?
    ensures !SafeReferences(v)
  {
  }

  lemma AllowedMembers(ms: seq<(string, Json)>)
    ensures Allowed(FromEntries(ms)) <==> forall i :: 0 <= i < |ms| ==> IsMemberName(ms[i].0)
  {
    hide FieldPaths, Reason, RequiredAction, References;
    FromEntriesKeys(ms);
    forall i | 0 <= i < |ms|
      ensures ms[i].0 in FromEntries(ms)
    {
      assert Keys(ms)[i] == ms[i].0;
    }
  }

  predicate IsMemberName(key: string) {
    key == FieldPaths() || key == Reason() || key == RequiredAction() || key == References()
  }

  lemma NotAnObject(host: Host, v: Json)
    requires !v.JObject?
    ensures Normalize(host, v) == None
  {
  }

  lemma Unsafe(host: Host, v: Json)
    requires v.JObject? && !SafeMembers(FromEntries(v.members))
    ensures Normalize(host, v) == None
  {
    hide SafeMembers, FromEntries;
  }

  lemma Safe(host: Host, v: Json)
    requires v.JObject? && SafeMembers(FromEntries(v.members))
    ensures var d := JObject(InOrder(Tidy(FromEntries(v.members))));
            Normalize(host, v) == if EncodedSize(host, d) <= MAX_ENCODED_BYTES then Some(d) else None
  {
    hide SafeMembers, FromEntries, InOrder, Tidy;
  }

  /** The four members, one after the other. */
  method NormalizeMembers(source: map<string, Json>) returns (r: Option<seq<(string, Json)>>)
    ensures r == if SafeParts(source) then Some(InOrder(Tidy(source))) else None
  {
    hide SafePaths, SafeReferences, StableToken, SortedMembers;
    hide FieldPaths, Reason, RequiredAction, References;
    var normalized: seq<(string, Json)> := [];
    if FieldPaths() in source {
      var paths := ClonePaths(source[FieldPaths()]);
      if paths.None? { return None; }
      normalized := normalized + [(FieldPaths(), paths.value)];
    }
    if Reason() in source {
      if !StableToken(source[Reason()], MAX_TOKEN_LENGTH) { return None; }
      normalized := normalized + [(Reason(), source[Reason()])];
    }
    if RequiredAction() in source {
      if !StableToken(source[RequiredAction()], MAX_TOKEN_LENGTH) { return None; }
      normalized := normalized + [(RequiredAction(), source[RequiredAction()])];
    }
    if References() in source {
      var references := SortReferences(source[References()]);
      if references.None? { return None; }
      normalized := normalized + [(References(), references.value)];
    }
    MemberNamesDiffer();
    assert normalized == InOrder(Tidy(source));
    return Some(normalized);
  }

  lemma EmptyInOrder(m: map<string, Json>)
    requires Allowed(m)
    ensures InOrder(Tidy(m)) == [] <==> m == map[]
  {
    hide FieldPaths, Reason, RequiredAction, References, SortedMembers;
    MemberNamesDiffer();
    if m != map[] {
      var key :| key in m;
      assert key in Tidy(m);
    }
  }

  /** Validates, clones and normalizes, or throws; it computes `Normalize`. */
  method NormalizeRejectionDetails(host: Host, value: Json) returns (r: Option<Json>)
    ensures r == Normalize(host, value)
  {
    hide Normalize, SafeParts, InOrder, Tidy, FromEntries, EncodedSize, IsMemberName, Allowed;
    if !value.JObject? {
      NotAnObject(host, value);
      return None;
    }
    AllowedMembers(value.members);
    var source := FromEntries(value.members);
    if !SafeMembers(source) { Unsafe(host, value); } else { Safe(host, value); }
    for i := 0 to |value.members|
      invariant forall j :: 0 <= j < i ==> IsMemberName(value.members[j].0)
    {
      if !IsMemberName(value.members[i].0) { return None; }
    }
    var normalized := NormalizeMembers(source);
    if normalized.None? { return None; }
    EmptyInOrder(source);
    if |normalized.value| == 0 { return None; }
    if EncodedSize(host, JObject(normalized.value)) > MAX_ENCODED_BYTES { return None; }
    return Some(JObject(normalized.value));
  }
}
