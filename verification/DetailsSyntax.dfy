/**
 * What the text checks of packages/core/src/rejection-details.ts accept, without their automata: tokens as
 * runs joined by separators, paths as names joined by dots, `trim` and the control characters
 * as the source has them, and with these the details that are not thrown out.
 */
module DetailsSyntax {
  import opened Hosts
  import opened RejectionDetails
  import Formats
  import CodeUnits
  import Utf8

  // ----- Tokens --------------------------------------------------------------------------------------------

  /** The runs with the separators between them. */
  function Weave(runs: seq<string>, seps: string): string
    requires |runs| == |seps| + 1
  {
    if seps == [] then runs[0] else runs[0] + [seps[0]] + Weave(runs[1..], seps[1..])
  }

  predicate IsRun(run: string) { forall i :: 0 <= i < |run| ==> 'a' <= run[i] <= 'z' || '0' <= run[i] <= '9' }

  /** Runs of letters and digits, none empty unless it is the first and may be, and separators one fewer. */
  predicate IsWoven(runs: seq<string>, seps: string, firstMayBeEmpty: bool) {
    && |runs| == |seps| + 1
    && (forall i :: 0 <= i < |runs| ==> IsRun(runs[i]) && (runs[i] == "" ==> i == 0 && firstMayBeEmpty))
    && (forall i :: 0 <= i < |seps| ==> seps[i] == '.' || seps[i] == '_' || seps[i] == '-')
  }

  lemma {:induction false} Unweave(s: string, i: nat, afterSeparator: bool) returns (runs: seq<string>, seps: string)
    requires i <= |s| && TokenFrom(s, i, afterSeparator)
    ensures IsWoven(runs, seps, !afterSeparator) && Weave(runs, seps) == s[i..]
    decreases |s| - i
  {
    if i == |s| {
      runs, seps := [""], [];
    } else if IsLower(s[i]) {
      runs, seps := Unweave(s, i + 1, false);
      Grow(runs, seps, s[i]);
      runs := runs[0 := [s[i]] + runs[0]];
      assert s[i..] == [s[i]] + s[i + 1..];
    } else {
      var rest, others := Unweave(s, i + 1, true);
      runs, seps := [""] + rest, [s[i]] + others;
      assert runs[1..] == rest && seps[1..] == others;
      assert s[i..] == [s[i]] + s[i + 1..];
    }
  }

  /** A letter in front of a woven text joins its first run. */
  lemma Grow(runs: seq<string>, seps: string, c: char)
    requires IsWoven(runs, seps, true) && IsLower(c)
    ensures var grown := runs[0 := [c] + runs[0]];
            IsWoven(grown, seps, false) && Weave(grown, seps) == [c] + Weave(runs, seps)
  {
    var grown := runs[0 := [c] + runs[0]];
    assert grown[1..] == runs[1..];
  }

  lemma {:induction false} Reweave(s: string, i: nat, afterSeparator: bool, runs: seq<string>, seps: string)
    requires i <= |s| && IsWoven(runs, seps, !afterSeparator) && Weave(runs, seps) == s[i..]
    ensures TokenFrom(s, i, afterSeparator)
    decreases |s| - i, |runs|
  {
    if runs[0] == "" {
      if seps != [] {
        assert s[i..][0] == seps[0] && s[i..][1..] == Weave(runs[1..], seps[1..]);
        assert s[i..][1..] == s[i + 1..];
        Reweave(s, i + 1, true, runs[1..], seps[1..]);
      }
    } else {
      var less := runs[0 := runs[0][1..]];
      assert less[1..] == runs[1..] && runs[0] == [runs[0][0]] + less[0];
      assert Weave(runs, seps) == [runs[0][0]] + Weave(less, seps);
      assert s[i..][0] == s[i] && s[i..][1..] == s[i + 1..];
      Reweave(s, i + 1, false, less, seps);
    }
  }

  /** Non-empty runs of lower-case letters and digits, joined by single dots, underscores or hyphens; a letter first. */
  ghost predicate Token(s: string) {
    && s != "" && 'a' <= s[0] <= 'z'
    && exists runs, seps :: IsWoven(runs, seps, false) && Weave(runs, seps) == s
  }

  lemma TokenMeans(s: string)
    ensures IsToken(s) <==> Token(s)
  {
    hide Weave;
    if s != "" && 'a' <= s[0] <= 'z' {
      assert s[0..] == s;
      assert TokenFrom(s, 0, true) == TokenFrom(s, 1, false);
      if TokenFrom(s, 0, true) { var runs, seps := Unweave(s, 0, true); }
      if runs, seps :| IsWoven(runs, seps, false) && Weave(runs, seps) == s { Reweave(s, 0, true, runs, seps); }
    }
  }

  /** The source's own example of a reason. */
  lemma ExampleToken()
    ensures IsToken("outside_schedule_day")
  {
    hide IsToken, Weave;
    var runs := ["outside", "schedule", "day"];
    LastRun("day");
    Weaves("schedule", '_', ["day"], "");
    assert ["schedule"] + ["day"] == ["schedule", "day"] && "_" + "" == "_";
    assert "schedule" + "_" + "day" == "schedule_day";
    Weaves("outside", '_', ["schedule", "day"], "_");
    assert ["outside"] + ["schedule", "day"] == runs && "_" + "_" == "__";
    assert "outside" + "_" + "schedule_day" == "outside_schedule_day";
    assert Weave(runs, "__") == "outside_schedule_day" && IsWoven(runs, "__", false);
    TokenMeans("outside_schedule_day");
  }

  lemma Weaves(run: string, sep: char, runs: seq<string>, seps: string)
    requires |runs| == |seps| + 1
    ensures Weave([run] + runs, [sep] + seps) == run + [sep] + Weave(runs, seps)
  {
    assert ([run] + runs)[1..] == runs && ([sep] + seps)[1..] == seps;
  }

  lemma LastRun(run: string)
    ensures Weave([run], "") == run
  {
  }

  // ----- Field paths -----------------------------------------------------------------------------------------

  function Dotted(names: seq<string>): string
    requires names != []
  {
    if |names| == 1 then names[0] else names[0] + "." + Dotted(names[1..])
  }

  predicate NameChar(c: char) { 'a' <= c <= 'z' || 'A' <= c <= 'Z' || c == '_' || '0' <= c <= '9' }

  /** Letters, digits and underscores. */
  predicate NameTail(name: string) { forall i :: 0 <= i < |name| ==> NameChar(name[i]) }

  predicate Name(name: string) { name != "" && NameTail(name) && !('0' <= name[0] <= '9') }

  /** Names, the first perhaps only the tail of one. */
  predicate AreNames(names: seq<string>, whole: bool) {
    && names != [] && (forall i :: 1 <= i < |names| ==> Name(names[i]))
    && if whole then Name(names[0]) else NameTail(names[0])
  }

  lemma {:induction false} Undot(s: string, i: nat, atStart: bool) returns (names: seq<string>)
    requires i <= |s| && PathFrom(s, i, atStart)
    ensures AreNames(names, atStart) && Dotted(names) == s[i..]
    decreases |s| - i
  {
    if i == |s| {
      names := [""];
    } else if s[i] == '.' {
      var rest := Undot(s, i + 1, true);
      names := [""] + rest;
      assert names[1..] == rest;
      assert s[i..] == [s[i]] + s[i + 1..];
    } else {
      names := Undot(s, i + 1, false);
      assert names[0 := [s[i]] + names[0]][1..] == names[1..];
      names := names[0 := [s[i]] + names[0]];
      assert s[i..] == [s[i]] + s[i + 1..];
    }
  }

  lemma {:induction false} Redot(s: string, i: nat, atStart: bool, names: seq<string>)
    requires i <= |s| && AreNames(names, atStart) && Dotted(names) == s[i..]
    ensures PathFrom(s, i, atStart)
    decreases |s| - i
  {
    if names[0] == "" {
      if |names| > 1 {
        assert s[i..][0] == '.' && s[i..][1..] == Dotted(names[1..]);
        assert s[i..][1..] == s[i + 1..];
        Redot(s, i + 1, true, names[1..]);
      }
    } else {
      var less := names[0 := names[0][1..]];
      assert less[1..] == names[1..] && names[0] == [names[0][0]] + less[0];
      assert Dotted(names) == [names[0][0]] + Dotted(less);
      assert s[i..][0] == s[i] && s[i..][1..] == s[i + 1..];
      Redot(s, i + 1, false, less);
    }
  }

  /** Names of letters, digits and underscores, none starting with a digit, joined by dots. */
  ghost predicate Path(s: string) {
    exists names :: names != [] && (forall i :: 0 <= i < |names| ==> Name(names[i])) && Dotted(names) == s
  }

  lemma PathMeans(s: string)
    ensures IsFieldPath(s) <==> Path(s)
  {
    hide Name, NameTail, Dotted, PathFrom;
    assert s[0..] == s;
    if IsFieldPath(s) {
      var names := Undot(s, 0, true);
      assert forall i :: 0 <= i < |names| ==> Name(names[i]);
    }
    if names :| names != [] && (forall i :: 0 <= i < |names| ==> Name(names[i])) && Dotted(names) == s {
      Redot(s, 0, true, names);
    }
  }

  // ----- Reference values --------------------------------------------------------------------------------------

  /** WhiteSpace and LineTerminator of ECMAScript, sections 12.2 and 12.3. */
  const SPACES: string := "\t\n\U{B}\U{C}\r \U{A0}\U{1680}\U{2000}\U{2001}\U{2002}\U{2003}\U{2004}\U{2005}\U{2006}\U{2007}\U{2008}\U{2009}\U{200A}\U{2028}\U{2029}\U{202F}\U{205F}\U{3000}\U{FEFF}"

  lemma SpaceMeans(c: char)
    ensures IsSpace(c) <==> c in SPACES
  {
    assert |SPACES| == 25;
  }

  /** `String.prototype.trim`. */
  function TrimStart(s: string): string { if s != [] && s[0] in SPACES then TrimStart(s[1..]) else s }

  function TrimEnd(s: string): string { if s != [] && s[|s| - 1] in SPACES then TrimEnd(s[..|s| - 1]) else s }

  function Trim(s: string): string { TrimEnd(TrimStart(s)) }

  lemma {:induction false} TrimStartSize(s: string)
    ensures |TrimStart(s)| <= |s|
  {
    if s != [] && s[0] in SPACES { TrimStartSize(s[1..]); }
  }

  lemma {:induction false} TrimEndSize(s: string)
    ensures |TrimEnd(s)| <= |s|
  {
    if s != [] && s[|s| - 1] in SPACES { TrimEndSize(s[..|s| - 1]); }
  }

  /** `s.trim() === s`. */
  lemma TrimmedMeans(s: string)
    ensures IsTrimmed(s) <==> Trim(s) == s
  {
    hide IsSpace;
    if s != [] {
      SpaceMeans(s[0]);
      SpaceMeans(s[|s| - 1]);
      if s[0] in SPACES {
        TrimStartSize(s[1..]);
        TrimEndSize(TrimStart(s));
      } else if s[|s| - 1] in SPACES {
        TrimEndSize(s[..|s| - 1]);
      }
    }
  }

  /** `hasControlCharacter` looks at code units. */
  predicate HasControl(s: string) { exists u :: u in CodeUnits.Units(s) && (0 <= u <= 0x1F || 0x7F <= u <= 0x9F) }

  lemma {:induction false} ControlMeans(s: string)
    ensures HasControl(s) <==> exists i :: 0 <= i < |s| && IsControl(s[i])
  {
    if s != [] {
      ControlMeans(s[1..]);
      CodeUnits.UnitsOfChar(s[0], s[1..]);
      assert s == [s[0]] + s[1..];
      var first, rest := CodeUnits.Units([s[0]]), CodeUnits.Units(s[1..]);
      assert forall u :: u in CodeUnits.Units(s) <==> u in first || u in rest;
      if IsControl(s[0]) { assert (s[0] as int) in first; }
      if i :| 0 <= i < |s[1..]| && IsControl(s[1..][i]) { assert s[i + 1] == s[1..][i]; }
      if i :| 0 < i < |s| && IsControl(s[i]) { assert s[1..][i - 1] == s[i]; }
    }
  }

  // ----- The details --------------------------------------------------------------------------------------------

  ghost predicate TokenValue(v: Json, maxLength: nat) {
    v.JString? && |CodeUnits.Units(v.s)| <= maxLength && Token(v.s)
  }

  ghost predicate PathValue(v: Json) { v.JString? && |CodeUnits.Units(v.s)| <= 160 && Path(v.s) }

  ghost predicate PathsValue(v: Json) {
    && v.JArray? && 1 <= |v.items| <= 32
    && (forall i :: 0 <= i < |v.items| ==> PathValue(v.items[i]))
    && forall i, j :: 0 <= i < j < |v.items| ==> v.items[i] != v.items[j]
  }

  predicate ReferenceValue(v: Json) {
    v.JString? && v.s != "" && |Utf8.Encode(v.s)| <= 256 && Trim(v.s) == v.s && !HasControl(v.s)
  }

  ghost predicate ReferencesValue(v: Json) {
    && v.JObject?
    && var m := Formats.FromEntries(v.members);
    && 1 <= |m| <= 16
    && forall key :: key in m ==> TokenValue(JString(key), 64) && ReferenceValue(m[key])
  }

  /** At least one member, no other than the four, and each of them as it must be. */
  ghost predicate Details(m: map<string, Json>) {
    && m != map[]
    && (forall key :: key in m ==> key == "fieldPaths" || key == "reason" || key == "requiredAction" || key == "references")
    && ("fieldPaths" in m ==> PathsValue(m["fieldPaths"]))
    && ("reason" in m ==> TokenValue(m["reason"], 96))
    && ("requiredAction" in m ==> TokenValue(m["requiredAction"], 96))
    && ("references" in m ==> ReferencesValue(m["references"]))
  }

  /** The references in the order of their keys. */
  function ByKey(v: Json): Json { if v.JObject? then JObject(Formats.Entries(Formats.FromEntries(v.members))) else v }

  /** The members in the order the code adds them. */
  function Ordered(m: map<string, Json>): seq<(string, Json)> {
    (if "fieldPaths" in m then [("fieldPaths", m["fieldPaths"])] else [])
    + (if "reason" in m then [("reason", m["reason"])] else [])
    + (if "requiredAction" in m then [("requiredAction", m["requiredAction"])] else [])
    + (if "references" in m then [("references", ByKey(m["references"]))] else [])
  }

  lemma ValuesMean(v: Json, n: nat)
    ensures StableToken(v, n) <==> TokenValue(v, n)
    ensures SafePath(v) <==> PathValue(v)
    ensures SafeReference(v) <==> ReferenceValue(v)
  {
    hide IsToken, Token, IsFieldPath, Path, IsTrimmed, Trim, HasControl, IsControl, CodeUnits.Units, Utf8.Encode;
    if v.JString? {
      TokenMeans(v.s);
      PathMeans(v.s);
      TrimmedMeans(v.s);
      ControlMeans(v.s);
    }
  }

  lemma ListsMean(v: Json)
    ensures SafePaths(v) <==> PathsValue(v)
    ensures SafeReferences(v) <==> ReferencesValue(v)
  {
    hide SafePath, PathValue, StableToken, TokenValue, SafeReference, ReferenceValue, Formats.FromEntries;
    if v.JArray? { forall i | 0 <= i < |v.items| ensures SafePath(v.items[i]) <==> PathValue(v.items[i]) { ValuesMean(v.items[i], 0); } }
    if v.JObject? {
      var m := Formats.FromEntries(v.members);
      forall key | key in m
        ensures StableToken(JString(key), 64) && SafeReference(m[key]) <==> TokenValue(JString(key), 64) && ReferenceValue(m[key])
      {
        ValuesMean(JString(key), 64);
        ValuesMean(m[key], 0);
      }
    }
  }

  lemma MembersMean(m: map<string, Json>)
    ensures SafeMembers(m) <==> Details(m)
    ensures InOrder(Tidy(m)) == Ordered(m)
  {
    hide SafePaths, PathsValue, SafeReferences, ReferencesValue, StableToken, TokenValue, Formats.FromEntries, Formats.Entries;
    MemberNamesDiffer();
    if "fieldPaths" in m { ListsMean(m["fieldPaths"]); }
    if "references" in m { ListsMean(m["references"]); }
    if "reason" in m { ValuesMean(m["reason"], 96); }
    if "requiredAction" in m { ValuesMean(m["requiredAction"], 96); }
  }

  /** Which details are normalized rather than thrown out, and to what. */
  lemma NormalizeMeans(host: Host, v: Json)
    ensures Normalize(host, v).Some? <==>
              && v.JObject?
              && var m := Formats.FromEntries(v.members);
              && Details(m)
              && |Utf8.Encode(host.jsonStringify(JObject(Ordered(m))))| <= 4096
    ensures Normalize(host, v).Some? ==> Normalize(host, v).value == JObject(Ordered(Formats.FromEntries(v.members)))
  {
    hide SafeMembers, Details, InOrder, Tidy, Ordered, Formats.FromEntries;
    if v.JObject? { MembersMean(Formats.FromEntries(v.members)); }
  }
}
