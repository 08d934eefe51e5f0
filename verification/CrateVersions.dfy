/** scripts/crate-versions.py: the version line of a Cargo.toml, the versions of a Cargo.lock, and bumping both. */
module CrateVersions {
  import opened Names

  // ---- Cargo.toml, a list of lines

  predicate IsSpace(c: char) {
    c == ' ' || c == '\t' || c == '\r' || c == '\n'
  }

  function StripLeft(s: string): string {
    if s != [] && IsSpace(s[0]) then StripLeft(s[1..]) else s
  }

  function StripRight(s: string): string {
    if s != [] && IsSpace(s[|s| - 1]) then StripRight(s[..|s| - 1]) else s
  }

  function Strip(s: string): string {
    StripRight(StripLeft(s))
  }

  predicate AllSpace(s: string) {
    StripLeft(s) == []
  }

  /** What comes before the first quote, if there is one. */
  function UntilQuote(s: string): Option<string> {
    if s == [] then None
    else if s[0] == '"' then Some([])
    else
      var rest := UntilQuote(s[1..]);
      if rest.None? then None else Some([s[0]] + rest.value)
  }

  lemma UntilQuoteFits(s: string)
    requires UntilQuote(s).Some?
    ensures |UntilQuote(s).value| < |s|
  {
  }

  /** `<key>\s*=\s*"([^"]*)"` at the start of a line: the value, and what follows the closing quote. */
  function MatchKey(key: string, s: string): Option<(string, string)> {
    if !(key <= s) then None
    else
      var a := StripLeft(s[|key|..]);
      if a == [] || a[0] != '=' then None
      else
        var b := StripLeft(a[1..]);
        if b == [] || b[0] != '"' || UntilQuote(b[1..]).None? then None
        else
          UntilQuoteFits(b[1..]);
          Some((UntilQuote(b[1..]).value, b[1..][|UntilQuote(b[1..]).value| + 1..]))
  }

  /** A version line: the key, an equals sign, a quoted value and nothing more. */
  function MatchVersion(line: string): Option<string> {
    var m := MatchKey("version", line);
    if m.Some? && AllSpace(m.value.1) then Some(m.value.0) else None
  }

  function MatchName(stripped: string): Option<string> {
    var m := MatchKey("name", stripped);
    if m.Some? then Some(m.value.0) else None
  }

  datatype Fields = Fields(section: string, name: Option<string>, version: Option<string>, line: Option<nat>)

  /** One line of `package_fields`, the `i`-th. The section is empty before the first header. */
  function ReadLine(f: Fields, line: string, i: nat): Fields {
    var s := Strip(line);
    if "[" <= s then f.(section := s)
    else if f.section != "[package]" then f
    else
      var f1 := if f.name.None? then f.(name := MatchName(s)) else f;
      var v := MatchVersion(line);
      if v.Some? && f1.version.None? then f1.(version := v, line := Some(i)) else f1
  }

  /** The first `i` lines read. */
  function FieldsAt(lines: seq<string>, i: nat): Fields
    requires i <= |lines|
  {
    if i == 0 then Fields([], None, None, None) else ReadLine(FieldsAt(lines, i - 1), lines[i - 1], i - 1)
  }

  /** `package_fields`: the name, the version and the number of the version line. */
  method PackageFields(lines: seq<string>) returns (name: Option<string>, version: Option<string>, line: Option<nat>)
    ensures var f := FieldsAt(lines, |lines|); name == f.name && version == f.version && line == f.line
  {
    name, version, line := None, None, None;
    var section := [];
    for i := 0 to |lines|
      invariant Fields(section, name, version, line) == FieldsAt(lines, i)
    {
      var s := Strip(lines[i]);
      if "[" <= s {
        section := s;
        continue;
      }
      if section != "[package]" {
        continue;
      }
      if name.None? {
        name := MatchName(s);
      }
      var v := MatchVersion(lines[i]);
      if v.Some? && version.None? {
        version, line := v, Some(i);
      }
    }
  }

  lemma {:induction false} LineFits(lines: seq<string>, i: nat)
    requires i <= |lines|
    ensures FieldsAt(lines, i).line.Some? <==> FieldsAt(lines, i).version.Some?
    ensures FieldsAt(lines, i).line.Some? ==> FieldsAt(lines, i).line.value < i
  {
    if i > 0 {
      LineFits(lines, i - 1);
    }
  }

  /** `without_version_line`: what is compared when asking whether the content changed. */
  function WithoutVersionLine(lines: seq<string>): seq<string> {
    LineFits(lines, |lines|);
    var at := FieldsAt(lines, |lines|).line;
    if at.None? then lines else lines[..at.value] + lines[at.value + 1..]
  }

  function VersionLine(v: string): string {
    "version" + (" = \"" + (v + "\""))
  }

  /** `set_toml_version`: the version line written anew; None (an error) when there is none. */
  function SetVersion(lines: seq<string>, v: string): Option<seq<string>> {
    LineFits(lines, |lines|);
    var at := FieldsAt(lines, |lines|).line;
    if at.None? then None else Some(lines[at.value := VersionLine(v)])
  }

  // ---- the written line reads back

  lemma {:induction false} UntilQuoteReads(v: string, rest: string)
    requires '"' !in v
    ensures UntilQuote(v + ("\"" + rest)) == Some(v)
  {
    if v == [] {
      assert v + ("\"" + rest) == "\"" + rest;
    } else {
      assert (v + ("\"" + rest))[1..] == v[1..] + ("\"" + rest);
      UntilQuoteReads(v[1..], rest);
      assert [v[0]] + v[1..] == v;
    }
  }

  lemma VersionLineReads(v: string)
    requires '"' !in v
    ensures MatchVersion(VersionLine(v)) == Some(v)
  {
    var line := VersionLine(v);
    var tail := " = \"" + (v + "\"");
    assert line[7..] == tail;
    assert tail[1..] == "= \"" + (v + "\"");
    var a := "= \"" + (v + "\"");
    assert StripLeft(tail) == a;
    assert a[1..] == " \"" + (v + "\"");
    var b := "\"" + (v + "\"");
    assert a[1..][1..] == b;
    assert StripLeft(a[1..]) == b;
    var c := v + "\"";
    assert b[1..] == c;
    assert c == v + ("\"" + []);
    UntilQuoteReads(v, []);
    assert c[|v| + 1..] == [];
  }

  lemma StripRightKeepsHead(s: string)
    requires s != [] && !IsSpace(s[0])
    ensures StripRight(s) != [] && StripRight(s)[0] == s[0]
    decreases |s|
  {
    if IsSpace(s[|s| - 1]) {
      StripRightKeepsHead(s[..|s| - 1]);
    }
  }

  /** A version line is no header and gives no name. */
  lemma VersionLineIsPlain(line: string)
    requires MatchVersion(line).Some?
    ensures !("[" <= Strip(line)) && MatchName(Strip(line)).None?
  {
    assert line[0] == 'v';
    StripRightKeepsHead(line);
  }

  lemma {:induction false} VersionLineAt(lines: seq<string>, i: nat)
    requires i <= |lines| && FieldsAt(lines, i).line.Some?
    ensures var k := FieldsAt(lines, i).line.value;
      && k < i && MatchVersion(lines[k]) == FieldsAt(lines, i).version
      && FieldsAt(lines, k).section == "[package]" && FieldsAt(lines, k).version.None?
      && FieldsAt(lines, k).line.None?
  {
    LineFits(lines, i - 1);
    LineFits(lines, i);
    if FieldsAt(lines, i - 1).line.Some? {
      VersionLineAt(lines, i - 1);
    }
  }

  lemma {:induction false} SetFields(lines: seq<string>, k: nat, v: string, i: nat)
    requires '"' !in v && i <= |lines| && FieldsAt(lines, |lines|).line == Some(k) && k < |lines|
    ensures var new' := lines[k := VersionLine(v)]; var f := FieldsAt(lines, i);
      FieldsAt(new', i) == if k < i then f.(version := Some(v)) else f
    ensures k < i ==> FieldsAt(lines, i).line == Some(k)
  {
    hide VersionLine, MatchVersion, MatchName, Strip, ReadLine;
    if i > 0 {
      SetFields(lines, k, v, i - 1);
      LineFits(lines, i - 1);
      if i - 1 == k {
        LineFits(lines, |lines|);
        VersionLineAt(lines, |lines|);
        ReadVersionLine(FieldsAt(lines, k), lines[k], k);
        VersionLineReads(v);
        ReadVersionLine(FieldsAt(lines, k), VersionLine(v), k);
      } else if k < i - 1 {
        ReadAfter(FieldsAt(lines, i - 1), FieldsAt(lines, i - 1).(version := Some(v)), lines[i - 1], i - 1);
      }
    }
  }

  /** Reading the first version line of the section. */
  lemma ReadVersionLine(f: Fields, line: string, i: nat)
    requires MatchVersion(line).Some? && f.section == "[package]" && f.version.None?
    ensures ReadLine(f, line, i) == f.(version := MatchVersion(line), line := Some(i))
  {
    hide MatchVersion, MatchName, Strip;
    VersionLineIsPlain(line);
  }

  /** Once there is a version, which one does not matter to the rest of the reading. */
  lemma ReadAfter(f: Fields, g: Fields, line: string, i: nat)
    requires f.version.Some? && g.version.Some? && g == f.(version := g.version)
    ensures ReadLine(g, line, i) == ReadLine(f, line, i).(version := g.version)
    ensures ReadLine(f, line, i).line == f.line
  {
    hide MatchVersion, MatchName, Strip;
  }

  /**
   * Setting the version is a lens that comparing contents cannot see: afterwards the same line is the version line and
   * reads back as what was written, the name is as before, and the text without the version line is as before.
   */
  lemma SetThenRead(lines: seq<string>, v: string)
    requires '"' !in v && SetVersion(lines, v).Some?
    ensures var new' := SetVersion(lines, v).value;
      var f := FieldsAt(lines, |lines|); var g := FieldsAt(new', |new'|);
      && g == f.(version := Some(v))
      && WithoutVersionLine(new') == WithoutVersionLine(lines)
  {
    LineFits(lines, |lines|);
    SetFields(lines, FieldsAt(lines, |lines|).line.value, v, |lines|);
  }

  /** Setting twice is setting the second; and setting what is there changes nothing if the line is written plainly. */
  lemma SetTwice(lines: seq<string>, v: string, w: string)
    requires '"' !in v && SetVersion(lines, v).Some?
    ensures SetVersion(SetVersion(lines, v).value, w) == SetVersion(lines, w)
    ensures var f := FieldsAt(lines, |lines|);
      f.line.Some? && f.line.value < |lines| && f.version.Some?
      && (SetVersion(lines, f.version.value) == Some(lines) <==> lines[f.line.value] == VersionLine(f.version.value))
  {
    hide VersionLine;
    LineFits(lines, |lines|);
    SetThenRead(lines, v);
    var k := FieldsAt(lines, |lines|).line.value;
    assert lines[k := VersionLine(v)][k := VersionLine(w)] == lines[k := VersionLine(w)];
    var same := VersionLine(FieldsAt(lines, |lines|).version.value);
    if lines[k] == same {
      assert lines[k := same] == lines;
    } else {
      assert lines[k := same][k] == same;
    }
  }

  // ---- Cargo.lock, by the kinds of line that the tool tells apart

  datatype LockLine = Package | NameOf(name: string) | VersionOf(version: string) | Source | Other(text: string)

  /** The open block of the reading, and the versions found so far, of the packages without a source. */
  datatype Reading = Reading(
    found: map<string, string>, open: bool, name: Option<string>, version: Option<string>, source: bool)

  function Close(r: Reading): map<string, string> {
    if r.open && r.name.Some? && r.version.Some? && !r.source then r.found[r.name.value := r.version.value] else r.found
  }

  function ReadLock(r: Reading, line: LockLine): Reading {
    match line
    case Package => Reading(Close(r), true, None, None, false)
    case NameOf(n) => if r.name.None? then r.(name := Some(n)) else r
    case VersionOf(v) => if r.version.None? then r.(version := Some(v)) else r
    case Source => r.(source := true)
    case Other(_) => r
  }

  function ReadingAt(lines: seq<LockLine>, i: nat): Reading
    requires i <= |lines|
  {
    if i == 0 then Reading(map[], false, None, None, false) else ReadLock(ReadingAt(lines, i - 1), lines[i - 1])
  }

  /** `lock_versions`: the workspace's own packages and their versions. */
  function LockVersions(lines: seq<LockLine>): map<string, string> {
    Close(ReadingAt(lines, |lines|))
  }

  /** The line before `i`; Python's index -1 is the last line. */
  function Before(lines: seq<LockLine>, i: nat): LockLine
    requires i < |lines|
  {
    if i == 0 then lines[|lines| - 1] else lines[i - 1]
  }

  /** Line `i` is the version line of a package to be written. */
  predicate Written(lines: seq<LockLine>, versions: map<string, string>, i: nat)
    requires i < |lines|
  {
    Shaped(lines, i) && lines[i - 1].name in versions
  }

  /** Line `i` is a version right after a name right after a block's header. */
  predicate Shaped(lines: seq<LockLine>, i: nat)
    requires i < |lines|
  {
    i > 0 && lines[i].VersionOf? && lines[i - 1].NameOf? && Before(lines, i - 1).Package?
  }

  function Rewritten(lines: seq<LockLine>, versions: map<string, string>, i: nat): LockLine
    requires i < |lines|
  {
    if Written(lines, versions, i) then VersionOf(versions[lines[i - 1].name]) else lines[i]
  }

  /** `set_lock_versions`: the loop over the lines, rewriting in place. False (an error) when a package is missing. */
  method SetLockVersions(lines: seq<LockLine>, versions: map<string, string>) returns (out: seq<LockLine>, ok: bool)
    ensures |out| == |lines| && forall i :: 0 <= i < |lines| ==> out[i] == Rewritten(lines, versions, i)
    ensures ok <==> forall n :: n in versions ==>
              exists i :: 0 <= i < |lines| && Written(lines, versions, i) && lines[i - 1] == NameOf(n)
  {
    out := lines;
    var done: set<string> := {};
    var i := 0;
    while i + 1 < |lines|
      invariant 0 <= i && (i < |lines| || (i == 0 && lines == []))
      invariant |out| == |lines|
      invariant forall j :: 0 <= j < |lines| ==> out[j] == if j <= i then Rewritten(lines, versions, j) else lines[j]
      invariant forall n :: n in done <==>
                  exists j :: 0 <= j <= i && j < |lines| && Written(lines, versions, j) && lines[j - 1] == NameOf(n)
      decreases |lines| - i
    {
      var before := if i == 0 then out[|out| - 1] else out[i - 1];
      if out[i].NameOf? && out[i].name in versions && before.Package? && out[i + 1].VersionOf? {
        assert Written(lines, versions, i + 1);
        done := done + {out[i].name};
        out := out[i + 1 := VersionOf(versions[out[i].name])];
      }
      i := i + 1;
    }
    ok := versions.Keys <= done;
  }

  // ---- which line gives a package its version

  /** The same reading, by the numbers of the version lines. */
  datatype Places = Places(
    found: map<string, nat>, open: bool, name: Option<string>, version: Option<nat>, source: bool)

  function ClosePlaces(p: Places): map<string, nat> {
    if p.open && p.name.Some? && p.version.Some? && !p.source then p.found[p.name.value := p.version.value] else p.found
  }

  function PlacesAt(lines: seq<LockLine>, i: nat): Places
    requires i <= |lines|
  {
    if i == 0 then Places(map[], false, None, None, false)
    else
      var p := PlacesAt(lines, i - 1);
      match lines[i - 1]
      case Package => Places(ClosePlaces(p), true, None, None, false)
      case NameOf(n) => if p.name.None? then p.(name := Some(n)) else p
      case VersionOf(_) => if p.version.None? then p.(version := Some(i - 1)) else p
      case Source => p.(source := true)
      case Other(_) => p
  }

  /** The line that gives each package its version. */
  function GivenAt(lines: seq<LockLine>): map<string, nat> {
    ClosePlaces(PlacesAt(lines, |lines|))
  }

  ghost predicate IsVersion(lines: seq<LockLine>, i: nat) {
    i < |lines| && lines[i].VersionOf?
  }

  /** The values of one reading stand on the lines of the other; where a line is shaped, its name is the block's. */
  ghost predicate Tells(lines: seq<LockLine>, p: Places, r: Reading) {
    && p.open == r.open && p.name == r.name && p.source == r.source
    && (p.version.None? <==> r.version.None?)
    && (p.version.Some? ==> IsVersion(lines, p.version.value) && lines[p.version.value].version == r.version.value
                            && (Shaped(lines, p.version.value) ==> p.name == Some(lines[p.version.value - 1].name)))
    && TellsFound(lines, p.found, r.found)
  }

  ghost predicate TellsFound(lines: seq<LockLine>, places: map<string, nat>, found: map<string, string>) {
    && places.Keys == found.Keys
    && forall n :: n in places ==>
         && IsVersion(lines, places[n]) && lines[places[n]].version == found[n]
         && (Shaped(lines, places[n]) ==> lines[places[n] - 1].name == n)
  }

  /** After a header nothing is known of the block, and after a name that comes first, the name. */
  lemma HeaderThenName(lines: seq<LockLine>, i: nat)
    requires i < |lines| && Shaped(lines, i)
    ensures PlacesAt(lines, i).name == Some(lines[i - 1].name)
  {
    var p := PlacesAt(lines, i - 1);
    if i > 1 {
      assert p == Places(p.found, true, None, None, false);
    }
  }

  lemma CloseTells(lines: seq<LockLine>, p: Places, r: Reading)
    requires Tells(lines, p, r)
    ensures TellsFound(lines, ClosePlaces(p), Close(r))
  {
    hide Shaped;
  }

  lemma {:induction false} PlacesTell(lines: seq<LockLine>, i: nat)
    requires i <= |lines|
    ensures Tells(lines, PlacesAt(lines, i), ReadingAt(lines, i))
  {
    hide Shaped, TellsFound;
    if i == 0 {
      NothingFound(lines);
    } else {
      PlacesTell(lines, i - 1);
      CloseTells(lines, PlacesAt(lines, i - 1), ReadingAt(lines, i - 1));
      if Shaped(lines, i - 1) {
        HeaderThenName(lines, i - 1);
      }
    }
  }

  lemma NothingFound(lines: seq<LockLine>)
    ensures TellsFound(lines, map[], map[])
  {
  }

  /** Rewriting versions moves no line. */
  lemma {:induction false} PlacesStay(lines: seq<LockLine>, out: seq<LockLine>, versions: map<string, string>, i: nat)
    requires |out| == |lines| && i <= |lines|
    requires forall j :: 0 <= j < |lines| ==> out[j] == Rewritten(lines, versions, j)
    ensures PlacesAt(out, i) == PlacesAt(lines, i)
  {
    if i > 0 {
      PlacesStay(lines, out, versions, i - 1);
      assert out[i - 1] == Rewritten(lines, versions, i - 1);
    }
  }

  /**
   * What `lock_versions` gives after `set_lock_versions`, for any lines: the same packages, each with what was written
   * for it if the line that gives its version comes right after its name right after the header, and as before if not.
   */
  lemma WrittenLockReads(lines: seq<LockLine>, out: seq<LockLine>, versions: map<string, string>)
    requires |out| == |lines| && forall j :: 0 <= j < |lines| ==> out[j] == Rewritten(lines, versions, j)
    ensures var m, m', at := LockVersions(lines), LockVersions(out), GivenAt(lines);
      && m'.Keys == m.Keys == at.Keys
      && forall n :: n in m ==>
           && at[n] < |lines|
           && m'[n] == if n in versions && Shaped(lines, at[n]) then versions[n] else m[n]
  {
    hide Shaped, ReadingAt, PlacesAt;
    PlacesTell(lines, |lines|);
    PlacesTell(out, |out|);
    PlacesStay(lines, out, versions, |lines|);
    CloseTells(lines, PlacesAt(lines, |lines|), ReadingAt(lines, |lines|));
    CloseTells(out, PlacesAt(out, |out|), ReadingAt(out, |out|));
    var m, at := LockVersions(lines), GivenAt(lines);
    assert TellsFound(lines, at, m) && TellsFound(out, at, LockVersions(out));
    forall n | n in m ensures out[at[n]] == Rewritten(lines, versions, at[n]) {
    }
  }

  /** As Cargo writes it: a name comes right after the block's header, and a version right after the name. */
  ghost predicate Regular(lines: seq<LockLine>) {
    && (forall i :: 0 <= i < |lines| && lines[i].NameOf? ==> i > 0 && lines[i - 1].Package?)
    && (forall i :: 0 <= i < |lines| && lines[i].VersionOf? ==> i > 0 && lines[i - 1].NameOf?)
  }

  /** In such a file all that was written reads back. */
  lemma RegularReads(lines: seq<LockLine>, out: seq<LockLine>, versions: map<string, string>)
    requires Regular(lines) && |out| == |lines|
    requires forall j :: 0 <= j < |lines| ==> out[j] == Rewritten(lines, versions, j)
    ensures var m, m' := LockVersions(lines), LockVersions(out);
      && m'.Keys == m.Keys
      && forall n :: n in m ==> m'[n] == if n in versions then versions[n] else m[n]
  {
    hide ReadingAt, PlacesAt;
    WrittenLockReads(lines, out, versions);
    PlacesTell(lines, |lines|);
    CloseTells(lines, PlacesAt(lines, |lines|), ReadingAt(lines, |lines|));
    assert TellsFound(lines, GivenAt(lines), LockVersions(lines));
  }

  // ---- bumping

  /** A version `0.<phase>.<number>`. */
  datatype Ver = Ver(phase: nat, number: nat)

  predicate VerLeq(a: Ver, b: Ver) {
    a.phase < b.phase || (a.phase == b.phase && a.number <= b.number)
  }

  /** The phase counts before the number. */
  lemma VersionsGrow(a: Ver, phase: nat, m: nat, n: nat)
    ensures a.phase < phase ==> VerLeq(a, Ver(phase, m)) && !VerLeq(Ver(phase, m), a)
    ensures VerLeq(Ver(phase, m), Ver(phase, n)) <==> m <= n
  {
  }

  function MaxVer(a: Ver, b: Ver): Ver {
    if VerLeq(a, b) then b else a
  }

  const SERVER: string := "proxy-server"

  /** `max` of the versions, at least one. */
  function Top(keys: seq<Ver>): (r: Ver)
    requires keys != []
    ensures r in keys && forall k :: k in keys ==> VerLeq(k, r)
  {
    if |keys| == 1 then keys[0]
    else
      assert keys == [keys[0]] + keys[1..];
      MaxVer(keys[0], Top(keys[1..]))
  }

  /** A version as it is written, and its key if it is of the form. */
  datatype Version = Version(text: string, key: Option<Ver>)

  function Shown(text: Ver -> string, v: Ver): Version {
    Version(text(v), Some(v))
  }

  /** The crates and the root, by name, with their versions. */
  datatype Repo = Repo(root: string, names: seq<string>, version: map<string, Version>)

  ghost predicate WellFormed(repo: Repo) {
    && repo.root in repo.version && repo.root != SERVER
    && (forall n :: n in repo.version <==> n in repo.names)
  }

  function Marked(repo: Repo, marked: set<string>, bump: Version, n: string): Version
    requires n in repo.version
  {
    if n in marked && n != repo.root then bump else repo.version[n]
  }

  /** The keys of all units when `marked` crates get `bump`; a version that is not of the form has none. */
  function Keyed(repo: Repo, names: seq<string>, marked: set<string>, bump: Version): seq<Ver>
    requires forall n :: n in names ==> n in repo.version
  {
    if names == [] then []
    else
      var key := Marked(repo, marked, bump, names[0]).key;
      (if key.Some? then [key.value] else []) + Keyed(repo, names[1..], marked, bump)
  }

  lemma {:induction false} KeyedHas(repo: Repo, names: seq<string>, marked: set<string>, bump: Version)
    requires forall n :: n in names ==> n in repo.version
    ensures forall n :: n in names && Marked(repo, marked, bump, n).key.Some? ==>
              Marked(repo, marked, bump, n).key.value in Keyed(repo, names, marked, bump)
  {
    hide Marked;
    if names != [] {
      KeyedHas(repo, names[1..], marked, bump);
      assert names == [names[0]] + names[1..];
    }
  }

  datatype Mode = Since(atHead: bool) | Fix

  /** What stops a bump: a unit left behind that has the number already, or nothing to bump. */
  predicate Refused(repo: Repo, mode: Mode, marked: set<string>, bump: Version) {
    match mode
    case Fix => exists n :: n in repo.names && n in marked && n in repo.version && repo.version[n].text == bump.text
    case Since(atHead) => atHead && forall n :: n in repo.names ==> n !in marked
  }

  /** The keys that the root's new version is the largest of. */
  function Candidates(repo: Repo, mode: Mode, marked: set<string>, b: Ver, bump: Version): seq<Ver>
    requires WellFormed(repo)
  {
    var whole := repo.root in marked || (mode.Fix? && SERVER in marked && SERVER in repo.version);
    Keyed(repo, repo.names, marked, bump) + if whole then [b] else []
  }

  /**
   * `bump_task` with `_finish_bump`: `marked` are the units whose content changed (or, in the mode that fixes, that
   * were left behind). The marked crates get the version of `b`, the root and the server the largest version of all;
   * what does not change is left out of the result. None (an error) when refused, or when there is no key at all.
   */
  function Bump(repo: Repo, mode: Mode, marked: set<string>, b: Ver, text: Ver -> string): Option<map<string, Version>>
    requires WellFormed(repo)
  {
    var bump := Shown(text, b);
    var keys := Candidates(repo, mode, marked, b, bump);
    if Refused(repo, mode, marked, bump) || keys == [] then None
    else
      var top := Shown(text, Top(keys));
      Some(map n | n in repo.version && Target(repo, marked, bump, top, n).text != repo.version[n].text
           :: Target(repo, marked, bump, top, n))
  }

  function Target(repo: Repo, marked: set<string>, bump: Version, top: Version, n: string): Version
    requires n in repo.version
  {
    if n == repo.root || n == SERVER then top else Marked(repo, marked, bump, n)
  }

  /** Rule (b): the server has the root's version, and no crate a larger one, of those whose versions have keys. */
  ghost predicate RuleB(repo: Repo) {
    && repo.root in repo.version
    && (SERVER in repo.version ==> repo.version[SERVER].text == repo.version[repo.root].text)
    && forall n :: n in repo.version && repo.version[n].key.Some? && repo.version[repo.root].key.Some? ==>
         VerLeq(repo.version[n].key.value, repo.version[repo.root].key.value)
  }

  function Applied(repo: Repo, versions: map<string, Version>): Repo {
    repo.(version := repo.version + versions)
  }

  /** The text decides whether a version has a key, and which. */
  ghost predicate Readable(repo: Repo, text: Ver -> string) {
    forall n, v :: n in repo.version && repo.version[n].text == text(v) ==> repo.version[n].key == Some(v)
  }

  /**
   * A bump re-establishes rule (b), whatever held before and whatever versions are not of the form: the root and the
   * server have one version, at least every crate's; the root's version never goes down; the crates that were marked
   * (but the server) have the new number and the others the one they had; and only what changed is written.
   */
  lemma BumpRestoresRuleB(repo: Repo, mode: Mode, marked: set<string>, b: Ver, text: Ver -> string)
    requires WellFormed(repo) && Readable(repo, text) && Bump(repo, mode, marked, b, text).Some?
    ensures var w := Bump(repo, mode, marked, b, text).value; var after := Applied(repo, w); var old' := repo.version;
      && after.version.Keys == old'.Keys && RuleB(after) && after.version[repo.root].key.Some?
      && (old'[repo.root].key.Some? ==> VerLeq(old'[repo.root].key.value, after.version[repo.root].key.value))
      && (forall n :: n in old' && n != repo.root && n != SERVER ==>
            after.version[n] == if n in marked then Shown(text, b) else old'[n])
      && (forall n :: n in w <==> n in old' && after.version[n].text != old'[n].text)
  {
    var bump := Shown(text, b);
    var w := Bump(repo, mode, marked, b, text).value;
    var after := Applied(repo, w);
    var keys := Candidates(repo, mode, marked, b, bump);
    var top := Top(keys);
    KeyedHas(repo, repo.names, marked, bump);
    assert repo.root in repo.names;
    forall n | n in repo.version
      ensures after.version[n] == Target(repo, marked, bump, Shown(text, top), n)
      ensures Marked(repo, marked, bump, n).key.Some? ==> VerLeq(Marked(repo, marked, bump, n).key.value, top)
    {
      assert n in repo.names;
    }
  }

  lemma {:induction false} KeyedFrom(repo: Repo, names: seq<string>, marked: set<string>, bump: Version, k: Ver)
    returns (n: string)
    requires forall n :: n in names ==> n in repo.version
    requires k in Keyed(repo, names, marked, bump)
    ensures n in names && Marked(repo, marked, bump, n).key == Some(k)
  {
    hide Marked;
    var key := Marked(repo, marked, bump, names[0]).key;
    if key == Some(k) {
      n := names[0];
    } else {
      n := KeyedFrom(repo, names[1..], marked, bump, k);
    }
  }

  /** The root itself is to be brought to the number: it is marked, or, when fixing, the server is. */
  predicate BringsRoot(repo: Repo, mode: Mode, marked: set<string>) {
    repo.root in marked || (mode == Fix && SERVER in marked && SERVER in repo.version)
  }

  /**
   * The root's new version is the largest of what there is, and nothing above that: of the versions of all units, with
   * the new number for the marked crates, and of the new number itself when the root is brought to it.
   */
  lemma BumpReaches(repo: Repo, mode: Mode, marked: set<string>, b: Ver, text: Ver -> string)
    requires WellFormed(repo) && Readable(repo, text) && Bump(repo, mode, marked, b, text).Some?
    ensures var after := Applied(repo, Bump(repo, mode, marked, b, text).value);
      var top := after.version[repo.root].key;
      && top.Some? && after.version[repo.root].text == text(top.value)
      && (SERVER in repo.version ==> after.version[SERVER].text == text(top.value))
      && (BringsRoot(repo, mode, marked) ==> VerLeq(b, top.value))
      && (forall n :: n in marked && n in repo.version && n != repo.root ==> VerLeq(b, top.value))
      && (forall n :: n in repo.version && n !in marked && repo.version[n].key.Some? ==>
            VerLeq(repo.version[n].key.value, top.value))
      && (|| (BringsRoot(repo, mode, marked) && top == Some(b))
          || (exists n :: n in repo.version && n in marked && n != repo.root && top == Some(b))
          || (exists n :: n in repo.version && (n !in marked || n == repo.root) && repo.version[n].key == top))
  {
    var bump := Shown(text, b);
    var keys := Candidates(repo, mode, marked, b, bump);
    var top := Top(keys);
    BumpRestoresRuleB(repo, mode, marked, b, text);
    KeyedHas(repo, repo.names, marked, bump);
    assert repo.root in repo.names;
    assert Applied(repo, Bump(repo, mode, marked, b, text).value).version[repo.root] == Shown(text, top);
    forall n | n in repo.version && Marked(repo, marked, bump, n).key.Some?
      ensures VerLeq(Marked(repo, marked, bump, n).key.value, top)
    {
      assert n in repo.names;
    }
    if top in Keyed(repo, repo.names, marked, bump) {
      var n := KeyedFrom(repo, repo.names, marked, bump, top);
      assert n in repo.version;
    }
  }

  /**
   * Exactly when a bump fails: when fixing, a unit left behind has the number already; with the base at the head,
   * nothing changed; or no unit has a version of the form and none is marked.
   */
  lemma BumpFailsIff(repo: Repo, mode: Mode, marked: set<string>, b: Ver, text: Ver -> string)
    requires WellFormed(repo)
    ensures Bump(repo, mode, marked, b, text).None? <==>
            || (mode == Fix && exists n :: n in repo.version && n in marked && repo.version[n].text == text(b))
            || (mode == Since(true) && forall n :: n in repo.version ==> n !in marked)
            || (forall n :: n in repo.version ==> repo.version[n].key.None? && n !in marked)
  {
    var bump := Shown(text, b);
    KeyedHas(repo, repo.names, marked, bump);
    if forall n :: n in repo.version ==> repo.version[n].key.None? && n !in marked {
      NoKeys(repo, repo.names, marked, bump);
    }
  }

  lemma {:induction false} NoKeys(repo: Repo, names: seq<string>, marked: set<string>, bump: Version)
    requires forall n :: n in names ==> n in repo.version && repo.version[n].key.None? && n !in marked
    ensures Keyed(repo, names, marked, bump) == []
  {
    if names != [] {
      NoKeys(repo, names[1..], marked, bump);
    }
  }

  /** Rule (e): the lock file has every unit at its own version. */
  ghost predicate RuleE(repo: Repo, lock: map<string, string>) {
    forall n :: n in repo.version ==> n in lock && lock[n] == repo.version[n].text
  }

  /** What is written to the lock file for the versions `w`. */
  function Texts(w: map<string, Version>): map<string, string> {
    map n | n in w :: w[n].text
  }

  /**
   * Exactly when rule (e) survives a bump, which writes only what changed: each version written to a manifest stands in
   * the lock file on a line right after the name right after the header, as it does in every file that Cargo writes.
   */
  lemma BumpKeepsRuleE(repo: Repo, w: map<string, Version>, lines: seq<LockLine>, out: seq<LockLine>)
    requires |out| == |lines| && w.Keys <= repo.version.Keys
    requires forall n :: n in w ==> w[n].text != repo.version[n].text
    requires forall j :: 0 <= j < |lines| ==> out[j] == Rewritten(lines, Texts(w), j)
    requires RuleE(repo, LockVersions(lines))
    ensures forall n :: n in w ==> n in GivenAt(lines) && GivenAt(lines)[n] < |lines|
    ensures RuleE(Applied(repo, w), LockVersions(out)) <==>
            forall n :: n in w ==> Shaped(lines, GivenAt(lines)[n])
  {
    hide Shaped, LockVersions, GivenAt;
    WrittenLockReads(lines, out, Texts(w));
    var after := Applied(repo, w);
    if RuleE(after, LockVersions(out)) {
      forall n | n in w ensures Shaped(lines, GivenAt(lines)[n]) {
        assert n in after.version && after.version[n] == w[n];
      }
    }
  }
}
