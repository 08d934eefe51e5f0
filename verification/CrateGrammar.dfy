/** What the readers of scripts/crate-versions.py accept, said of the text itself. */
module CrateGrammar {
  import opened Names
  import opened CrateVersions

  // ---- a line that gives a key a quoted value

  predicate Spaces(s: string) {
    forall i :: 0 <= i < |s| ==> s[i] == ' ' || s[i] == '\t' || s[i] == '\r' || s[i] == '\n'
  }

  /** The key, an equals sign with any space around it, the value in quotes, and whatever follows. */
  function Assigned(key: string, a: string, b: string, v: string, rest: string): string {
    key + (a + ("=" + (b + ("\"" + (v + ("\"" + rest))))))
  }

  lemma {:induction false} StripLeftSplits(s: string) returns (a: string)
    ensures Spaces(a) && s == a + StripLeft(s)
    ensures StripLeft(s) == [] || !IsSpace(StripLeft(s)[0])
  {
    if s != [] && IsSpace(s[0]) {
      var rest := StripLeftSplits(s[1..]);
      a := [s[0]] + rest;
    } else {
      a := [];
    }
  }

  lemma {:induction false} StripLeftDrops(a: string, s: string)
    requires Spaces(a) && (s == [] || !IsSpace(s[0]))
    ensures StripLeft(a + s) == s
  {
    if a == [] {
      assert a + s == s;
    } else {
      assert (a + s)[1..] == a[1..] + s;
      StripLeftDrops(a[1..], s);
    }
  }

  lemma {:induction false} UntilQuoteSplits(s: string)
    requires UntilQuote(s).Some?
    ensures var v := UntilQuote(s).value; '"' !in v && |v| < |s| && s == v + ("\"" + s[|v| + 1..])
  {
    if s[0] != '"' {
      UntilQuoteSplits(s[1..]);
    }
  }

  lemma Prefixed(p: string, s: string)
    ensures p <= p + s && (p + s)[|p|..] == s
  {
  }

  lemma AssignedMatches(key: string, a: string, b: string, v: string, rest: string)
    requires Spaces(a) && Spaces(b) && '"' !in v
    ensures MatchKey(key, Assigned(key, a, b, v, rest)) == Some((v, rest))
  {
    hide UntilQuote, StripLeft;
    var c := "\"" + (v + ("\"" + rest));
    var d := "=" + (b + c);
    Prefixed(key, a + d);
    StripLeftDrops(a, d);
    Prefixed("=", b + c);
    StripLeftDrops(b, c);
    Prefixed("\"", v + ("\"" + rest));
    UntilQuoteReads(v, rest);
    Prefixed(v, "\"" + rest);
    assert (v + ("\"" + rest))[|v| + 1..] == rest;
  }

  lemma MatchIsAssigned(key: string, s: string) returns (a: string, b: string)
    requires MatchKey(key, s).Some?
    ensures var m := MatchKey(key, s).value;
      Spaces(a) && Spaces(b) && '"' !in m.0 && s == Assigned(key, a, b, m.0, m.1)
  {
    hide UntilQuote, StripLeft;
    var after := s[|key|..];
    a := StripLeftSplits(after);
    var d := StripLeft(after);
    b := StripLeftSplits(d[1..]);
    var c := StripLeft(d[1..]);
    UntilQuoteSplits(c[1..]);
    assert s == key + after && d == "=" + d[1..] && c == "\"" + c[1..];
  }

  lemma {:induction false} AllSpaceIs(s: string)
    ensures AllSpace(s) <==> Spaces(s)
  {
    if s != [] && IsSpace(s[0]) {
      AllSpaceIs(s[1..]);
    }
  }

  /** Exactly which lines are version lines, and of which version. */
  lemma VersionLineIff(line: string, v: string)
    ensures MatchVersion(line) == Some(v) <==>
            '"' !in v && exists a, b, c ::
              Spaces(a) && Spaces(b) && Spaces(c) && line == Assigned("version", a, b, v, c)
    ensures VersionLine(v) == Assigned("version", " ", " ", v, "")
  {
    hide MatchKey, Spaces, Assigned, AllSpace;
    if MatchVersion(line) == Some(v) {
      var a, b := MatchIsAssigned("version", line);
      AllSpaceIs(MatchKey("version", line).value.1);
    }
    if '"' !in v {
      forall a, b, c | Spaces(a) && Spaces(b) && Spaces(c) && line == Assigned("version", a, b, v, c)
        ensures MatchVersion(line) == Some(v)
      {
        AssignedMatches("version", a, b, v, c);
        AllSpaceIs(c);
      }
    }
    WrittenPlainly(v);
  }

  lemma WrittenPlainly(v: string)
    ensures VersionLine(v) == Assigned("version", " ", " ", v, "")
  {
    assert v + ("\"" + "") == v + "\"";
    assert " = \"" + (v + "\"") == " " + ("=" + (" " + ("\"" + (v + "\""))));
  }

  /** Exactly which lines, stripped, give a name, whatever follows it. */
  lemma NameLineIff(stripped: string, n: string)
    ensures MatchName(stripped) == Some(n) <==>
            '"' !in n && exists a, b, rest :: Spaces(a) && Spaces(b) && stripped == Assigned("name", a, b, n, rest)
  {
    hide MatchKey, Spaces, Assigned;
    if MatchName(stripped) == Some(n) {
      var a, b := MatchIsAssigned("name", stripped);
    }
    if '"' !in n {
      forall a, b, rest | Spaces(a) && Spaces(b) && stripped == Assigned("name", a, b, n, rest)
        ensures MatchName(stripped) == Some(n)
      {
        AssignedMatches("name", a, b, n, rest);
      }
    }
  }

  // ---- the lines of the package's section

  predicate Header(line: string) {
    "[" <= Strip(line)
  }

  /** Line `k` is under the header `[package]`, with no other header between. */
  ghost predicate InPackage(lines: seq<string>, k: nat) {
    && k < |lines| && !Header(lines[k])
    && exists h: nat :: h < k && Strip(lines[h]) == "[package]" && forall j :: h < j < k ==> !Header(lines[j])
  }

  lemma {:induction false} SectionIs(lines: seq<string>, k: nat)
    requires k <= |lines|
    ensures FieldsAt(lines, k).section == "[package]" <==>
            exists h: nat :: h < k && Strip(lines[h]) == "[package]" && forall j :: h < j < k ==> !Header(lines[j])
  {
    hide Strip, MatchName, MatchVersion;
    if k > 0 {
      SectionIs(lines, k - 1);
      if Header(lines[k - 1]) {
        assert FieldsAt(lines, k).section == Strip(lines[k - 1]);
        if h: nat :| h < k && Strip(lines[h]) == "[package]" && forall j :: h < j < k ==> !Header(lines[j]) {
          assert h == k - 1;
        }
      } else {
        assert Strip(lines[k - 1]) != "[package]";
      }
    }
  }

  /** Line `k` is the first version line of the package's section. */
  ghost predicate FirstVersion(lines: seq<string>, k: nat) {
    && InPackage(lines, k) && MatchVersion(lines[k]).Some?
    && forall j: nat | j < k && InPackage(lines, j) :: MatchVersion(lines[j]).None?
  }

  ghost predicate FirstName(lines: seq<string>, k: nat) {
    && InPackage(lines, k) && MatchName(Strip(lines[k])).Some?
    && forall j: nat | j < k && InPackage(lines, j) :: MatchName(Strip(lines[j])).None?
  }

  /** The reading of the first `i` lines has the first of each among them. */
  ghost predicate ReadSoFar(lines: seq<string>, i: nat)
    requires i <= |lines|
  {
    var f := FieldsAt(lines, i);
    && (forall k: nat | k < i && FirstVersion(lines, k) :: f.line == Some(k) && f.version == MatchVersion(lines[k]))
    && (forall k: nat | k < i && FirstName(lines, k) :: f.name == MatchName(Strip(lines[k])))
    && (f.version.Some? ==> f.line.Some? && f.line.value < i && FirstVersion(lines, f.line.value))
    && (f.line.Some? ==> f.version.Some?)
    && (f.version.None? ==> forall j: nat | j < i && InPackage(lines, j) :: MatchVersion(lines[j]).None?)
    && (f.name.Some? ==> exists k: nat :: k < i && FirstName(lines, k))
    && (f.name.None? ==> forall j: nat | j < i && InPackage(lines, j) :: MatchName(Strip(lines[j])).None?)
  }

  /** One more line: what it adds to the reading. */
  lemma ReadNext(lines: seq<string>, k: nat)
    requires k < |lines|
    ensures var f, g := FieldsAt(lines, k), FieldsAt(lines, k + 1);
      if InPackage(lines, k) then
        && g.name == (if f.name.None? then MatchName(Strip(lines[k])) else f.name)
        && (if f.version.None? && MatchVersion(lines[k]).Some?
            then g.version == MatchVersion(lines[k]) && g.line == Some(k)
            else g.version == f.version && g.line == f.line)
      else g.name == f.name && g.version == f.version && g.line == f.line
  {
    hide Strip, MatchName, MatchVersion;
    SectionIs(lines, k);
  }

  lemma {:induction false} ReadsFirst(lines: seq<string>, i: nat)
    requires i <= |lines|
    ensures ReadSoFar(lines, i)
  {
    hide Strip, MatchName, MatchVersion, InPackage, FieldsAt;
    if i == 0 {
      assert FieldsAt(lines, 0) == Fields([], None, None, None) by { NothingRead(lines); }
    } else {
      var k := i - 1;
      ReadsFirst(lines, k);
      ReadNext(lines, k);
      var f, g := FieldsAt(lines, k), FieldsAt(lines, i);
      assert FirstVersion(lines, k) <==> InPackage(lines, k) && MatchVersion(lines[k]).Some? && f.version.None?;
      assert FirstName(lines, k) <==> InPackage(lines, k) && MatchName(Strip(lines[k])).Some? && f.name.None?;
      if g.name.Some? && f.name.None? {
        assert k < i && FirstName(lines, k);
      }
    }
  }

  lemma NothingRead(lines: seq<string>)
    ensures FieldsAt(lines, 0) == Fields([], None, None, None)
  {
  }

  /** `package_fields` gives the first version line under `[package]` and the first name, None where there is none. */
  lemma FieldsMean(lines: seq<string>, k: nat)
    ensures var f := FieldsAt(lines, |lines|);
      && (f.line == Some(k) <==> FirstVersion(lines, k))
      && (FirstVersion(lines, k) ==> f.version == MatchVersion(lines[k]))
      && (f.version.Some? ==> f.line.Some?)
      && (FirstName(lines, k) ==> f.name == MatchName(Strip(lines[k])))
      && (f.name.Some? ==> exists j: nat :: FirstName(lines, j))
  {
    hide Strip, MatchName, MatchVersion, FieldsAt, FirstVersion, FirstName;
    ReadsFirst(lines, |lines|);
    assert FirstVersion(lines, k) ==> k < |lines| by { FirstIsLine(lines, k); }
    assert FirstName(lines, k) ==> k < |lines| by { FirstIsLine(lines, k); }
  }

  lemma FirstIsLine(lines: seq<string>, k: nat)
    ensures FirstVersion(lines, k) || FirstName(lines, k) ==> k < |lines|
  {
  }

  // ---- what is compared

  /** Everything but the version line, in order. */
  lemma WithoutIs(lines: seq<string>)
    ensures var r := WithoutVersionLine(lines); var at := FieldsAt(lines, |lines|).line;
      if at.None? then r == lines
      else
        && at.value < |lines| && |r| == |lines| - 1
        && (forall j :: 0 <= j < at.value ==> r[j] == lines[j])
        && (forall j :: at.value <= j < |r| ==> r[j] == lines[j + 1])
  {
    LineFits(lines, |lines|);
  }

  /** Two texts compare equal exactly when they differ at most in their version lines (which stand at one place). */
  lemma ComparesEqualIff(a: seq<string>, b: seq<string>)
    requires FieldsAt(a, |a|).line == FieldsAt(b, |b|).line
    ensures WithoutVersionLine(a) == WithoutVersionLine(b) <==>
            |a| == |b| && forall j :: 0 <= j < |a| && FieldsAt(a, |a|).line != Some(j) ==> a[j] == b[j]
  {
    hide FieldsAt;
    WithoutIs(a);
    WithoutIs(b);
    hide WithoutVersionLine;
    var at := FieldsAt(a, |a|).line;
    var r, s := WithoutVersionLine(a), WithoutVersionLine(b);
    if at.Some? && r == s {
      forall j | 0 <= j < |a| && at != Some(j) ensures a[j] == b[j] {
        assert r[if j < at.value then j else j - 1] == s[if j < at.value then j else j - 1];
      }
    }
    if at.Some? && |a| == |b| && forall j :: 0 <= j < |a| && at != Some(j) ==> a[j] == b[j] {
      forall j | 0 <= j < |r| ensures r[j] == s[j] {
        assert at != Some(if j < at.value then j else j + 1);
      }
    }
  }

  // ---- Cargo.lock, block by block

  function NameIn(body: seq<LockLine>): Option<string> {
    if body == [] then None else if body[0].NameOf? then Some(body[0].name) else NameIn(body[1..])
  }

  function VersionIn(body: seq<LockLine>): Option<string> {
    if body == [] then None else if body[0].VersionOf? then Some(body[0].version) else VersionIn(body[1..])
  }

  function Or(a: Option<string>, b: Option<string>): Option<string> {
    if a.Some? then a else b
  }

  lemma {:induction false} ReadingGoesOn(lines: seq<LockLine>, i: nat)
    requires i <= |lines| && forall j :: i <= j < |lines| ==> !lines[j].Package?
    ensures var r, s := ReadingAt(lines, i), ReadingAt(lines, |lines|); var body := lines[i..];
      && s.found == r.found && s.open == r.open
      && s.name == Or(r.name, NameIn(body)) && s.version == Or(r.version, VersionIn(body))
      && (s.source <==> r.source || Source in body)
    decreases |lines| - i
  {
    hide ReadingAt;
    var body := lines[i..];
    if i < |lines| {
      assert ReadingAt(lines, i + 1) == ReadLock(ReadingAt(lines, i), lines[i]) by { ReadingNext(lines, i); }
      ReadingGoesOn(lines, i + 1);
      assert body[0] == lines[i] && body[1..] == lines[i + 1..] && body == [body[0]] + body[1..];
    }
  }

  lemma ReadingNext(lines: seq<LockLine>, i: nat)
    requires i < |lines|
    ensures ReadingAt(lines, i + 1) == ReadLock(ReadingAt(lines, i), lines[i])
  {
  }

  lemma {:induction false} ReadingPrefix(lines: seq<LockLine>, more: seq<LockLine>, i: nat)
    requires i <= |lines|
    ensures ReadingAt(lines + more, i) == ReadingAt(lines, i)
  {
    if i > 0 {
      ReadingPrefix(lines, more, i - 1);
    }
  }

  lemma BlockOpens(lines: seq<LockLine>, body: seq<LockLine>)
    ensures ReadingAt(lines + ([Package] + body), |lines| + 1) == Reading(LockVersions(lines), true, None, None, false)
  {
    hide Close;
    ReadingPrefix(lines, [Package] + body, |lines|);
    ReadingNext(lines + ([Package] + body), |lines|);
  }

  /**
   * `lock_versions`, block by block: a block adds its first version under its first name, if it has both and no source,
   * and lines before the first block add nothing.
   */
  lemma BlockReads(lines: seq<LockLine>, body: seq<LockLine>)
    requires forall j :: 0 <= j < |body| ==> !body[j].Package?
    ensures LockVersions(lines + ([Package] + body)) ==
            if NameIn(body).Some? && VersionIn(body).Some? && Source !in body
            then LockVersions(lines)[NameIn(body).value := VersionIn(body).value] else LockVersions(lines)
    ensures LockVersions(body) == map[]
  {
    hide ReadingAt;
    var all := lines + ([Package] + body);
    BlockOpens(lines, body);
    assert all[|lines| + 1..] == body;
    ReadingGoesOn(all, |lines| + 1);
    assert body[0..] == body;
    ReadingGoesOn(body, 0);
    assert ReadingAt(body, 0) == Reading(map[], false, None, None, false) by { ReadingBegins(body); }
  }

  lemma ReadingBegins(lines: seq<LockLine>)
    ensures ReadingAt(lines, 0) == Reading(map[], false, None, None, false)
  {
  }
}
