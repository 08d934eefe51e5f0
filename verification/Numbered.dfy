/** The replacement names of scripts/anonymize-snapshot.py: numbered, and readable back. */
module Numbered {
  import opened Names

  predicate IsDigit(c: char) {
    '0' <= c <= '9'
  }

  function DigitChar(d: nat): char
    requires d < 10
  {
    ('0' as int + d) as char
  }

  function DigitValue(c: char): nat
    requires IsDigit(c)
  {
    c as int - '0' as int
  }

  ghost predicate AllDigits(s: string) {
    forall i :: 0 <= i < |s| ==> IsDigit(s[i])
  }

  /** A number in decimal, no leading zeros but for 0 itself. */
  function Decimal(n: nat): (s: string)
    ensures s != [] && AllDigits(s)
  {
    if n < 10 then [DigitChar(n)] else Decimal(n / 10) + [DigitChar(n % 10)]
  }

  /** The number that a row of digits stands for. */
  function Read(s: string): nat
    requires AllDigits(s)
  {
    if s == [] then 0 else Read(s[..|s| - 1]) * 10 + DigitValue(s[|s| - 1])
  }

  lemma {:induction false} ReadDecimal(n: nat)
    ensures Read(Decimal(n)) == n
  {
    if n >= 10 {
      var s := Decimal(n / 10) + [DigitChar(n % 10)];
      assert s[..|s| - 1] == Decimal(n / 10);
      ReadDecimal(n / 10);
    } else {
      assert [DigitChar(n)][..0] == [];
    }
  }

  function Zeros(k: nat): (s: string)
    ensures |s| == k && AllDigits(s) && forall i :: 0 <= i < k ==> s[i] == '0'
  {
    if k == 0 then [] else "0" + Zeros(k - 1)
  }

  lemma {:induction false} ReadZeros(k: nat, s: string)
    requires AllDigits(s)
    ensures AllDigits(Zeros(k) + s) && Read(Zeros(k) + s) == Read(s)
    decreases |s|, k
  {
    var z := Zeros(k) + s;
    if s != [] {
      assert z[..|z| - 1] == Zeros(k) + s[..|s| - 1];
      ReadZeros(k, s[..|s| - 1]);
    } else if k > 0 {
      assert z == Zeros(k);
      assert z[..k - 1] == Zeros(k - 1) + [] by {
        assert forall i :: 0 <= i < k - 1 ==> z[i] == '0' && Zeros(k - 1)[i] == '0';
      }
      ReadZeros(k - 1, []);
    } else {
      assert z == [];
    }
  }

  /** `{:0Wd}`: at least `w` digits, zeros in front. */
  function Padded(w: nat, n: nat): (s: string)
    ensures AllDigits(s) && |s| >= w && s != []
  {
    var d := Decimal(n);
    Zeros(if |d| < w then w - |d| else 0) + d
  }

  lemma ReadPadded(w: nat, n: nat)
    ensures Read(Padded(w, n)) == n
  {
    var d := Decimal(n);
    ReadDecimal(n);
    ReadZeros(if |d| < w then w - |d| else 0, d);
  }

  /** The digits that a text begins with. */
  function Digits(s: string): (d: string)
    ensures AllDigits(d) && d <= s && (|d| < |s| ==> !IsDigit(s[|d|]))
  {
    if s == [] || !IsDigit(s[0]) then []
    else
      assert s == [s[0]] + s[1..];
      [s[0]] + Digits(s[1..])
  }

  lemma {:induction false} DigitsThen(d: string, rest: string)
    requires AllDigits(d) && (rest != [] ==> !IsDigit(rest[0]))
    ensures Digits(d + rest) == d
  {
    if d == [] {
      assert d + rest == rest;
    } else {
      assert (d + rest)[1..] == d[1..] + rest;
      DigitsThen(d[1..], rest);
    }
  }

  const TAIL: string := ".example"

  /** `host-{:04d}.g{:04d}.example`. */
  function HostText(n: nat, group: nat): string {
    "host-" + (Padded(4, n) + (".g" + (Padded(4, group) + TAIL)))
  }

  /** The end of a replaced host: `.example`, with `.g` and a group of four digits or more before it, or not. */
  function ReadTail(rest: string): Option<Option<nat>> {
    if rest == TAIL then Some(None)
    else if !(".g" <= rest) then None
    else
      var g := Digits(rest[2..]);
      if |g| < 4 || rest[2 + |g|..] != TAIL then None else Some(Some(Read(g)))
  }

  /** What the pattern for replaced hosts reads: the number, and the group if there is one (older texts have none). */
  function ReadHost(s: string): Option<(nat, Option<nat>)> {
    if !("host-" <= s) then None
    else
      var after := s[5..];
      var d := Digits(after);
      var tail := ReadTail(after[|d|..]);
      if |d| < 4 || tail.None? then None else Some((Read(d), tail.value))
  }

  /** A replaced host reads back, so that no two numbers or groups give the same text. */
  lemma HostRoundTrip(n: nat, group: nat)
    ensures ReadHost(HostText(n, group)) == Some((n, Some(group)))
  {
    ReadPadded(4, n);
    ReadPadded(4, group);
    ReadsBack(Padded(4, n), Padded(4, group));
  }

  lemma TailReadsBack(g: string)
    requires AllDigits(g) && |g| >= 4
    ensures ReadTail(".g" + (g + TAIL)) == Some(Some(Read(g)))
  {
    hide Read, Digits;
    hide AllDigits;
    var rest := ".g" + (g + TAIL);
    Prefixed(".g", g + TAIL);
    Prefixed(g, TAIL);
    DigitsThen(g, TAIL);
    assert |rest| > |TAIL| && rest[2 + |g|..] == rest[2..][|g|..];
  }

  lemma ReadsBack(d: string, g: string)
    requires AllDigits(d) && AllDigits(g) && |d| >= 4 && |g| >= 4
    ensures ReadHost("host-" + (d + (".g" + (g + TAIL)))) == Some((Read(d), Some(Read(g))))
  {
    hide Read, Digits, ReadTail;
    var rest := ".g" + (g + TAIL);
    Prefixed("host-", d + rest);
    Prefixed(d, rest);
    DigitsThen(d, rest);
    TailReadsBack(g);
  }

  lemma Prefixed(p: string, x: string)
    ensures p <= p + x && (p + x)[|p|..] == x
  {
  }

  /** `ua-{:02d}`. */
  function AgentText(n: nat): string {
    "ua-" + Padded(2, n)
  }

  function ReadAgent(s: string): Option<nat> {
    if !("ua-" <= s) then None
    else
      var d := Digits(s[3..]);
      if |d| < 2 || 3 + |d| != |s| then None else Some(Read(d))
  }

  lemma AgentRoundTrip(n: nat)
    ensures ReadAgent(AgentText(n)) == Some(n)
  {
    var d := Padded(2, n);
    ReadPadded(2, n);
    assert AgentText(n)[3..] == d == d + [];
    DigitsThen(d, []);
  }

  // ---- the texts at their formats

  /** `n` in decimal, with at least `w` digits, and zeros in front only up to that width. */
  ghost predicate IsNumber(s: string, w: nat, n: nat) {
    AllDigits(s) && |s| >= w && s != [] && Read(s) == n && (|s| > w && |s| > 1 ==> s[0] != '0')
  }

  lemma {:induction false} DecimalHasNoZero(n: nat)
    ensures n > 0 ==> Decimal(n)[0] != '0'
    ensures n == 0 ==> |Decimal(n)| == 1
  {
    if n >= 10 {
      DecimalHasNoZero(n / 10);
    }
  }

  lemma PaddedIsNumber(w: nat, n: nat)
    ensures IsNumber(Padded(w, n), w, n)
  {
    ReadPadded(w, n);
    DecimalHasNoZero(n);
    var d := Decimal(n);
    if |d| < w {
      assert |Padded(w, n)| == w;
    } else {
      assert Zeros(0) + d == d;
    }
  }

  lemma Joined(a: string, b: string, c: string, d: string, e: string)
    ensures a + (b + (c + (d + e))) == a + b + c + d + e
  {
    var x, y := a + (b + (c + (d + e))), a + b + c + d + e;
    assert |x| == |y|;
    assert forall i :: 0 <= i < |x| ==> x[i] == y[i];
  }

  /** What the replacements look like. */
  lemma TextsAre(n: nat, group: nat)
    ensures exists d, g :: IsNumber(d, 4, n) && IsNumber(g, 4, group)
                           && HostText(n, group) == "host-" + d + ".g" + g + ".example"
    ensures exists d :: IsNumber(d, 2, n) && AgentText(n) == "ua-" + d
  {
    PaddedIsNumber(4, n);
    PaddedIsNumber(4, group);
    PaddedIsNumber(2, n);
    hide Padded, IsNumber;
    var d, g := Padded(4, n), Padded(4, group);
    Joined("host-", d, ".g", g, TAIL);
  }

  lemma DecimalsOfSome()
    ensures Decimal(1) == "1" && Decimal(4) == "4" && Decimal(23) == "23" && Decimal(123) == "123"
  {
    assert Decimal(12) == Decimal(1) + "2";
    assert Decimal(123) == Decimal(12) + "3";
    assert Decimal(23) == Decimal(2) + "3";
  }

  lemma TextsOfSome()
    ensures HostText(1, 23) == "host-0001.g0023.example"
    ensures AgentText(4) == "ua-04" && AgentText(123) == "ua-123"
  {
    DecimalsOfSome();
    ZerosAre();
    hide Decimal, Zeros;
    assert Padded(4, 1) == "0001" && Padded(4, 23) == "0023";
    assert Padded(2, 4) == "04" && Padded(2, 123) == "123";
  }

  lemma ZerosAre()
    ensures Zeros(0) == "" && Zeros(1) == "0" && Zeros(2) == "00" && Zeros(3) == "000"
  {
  }

  /** `host-`, four digits or more, and the end. */
  ghost predicate PlainHost(s: string, d: string) {
    AllDigits(d) && |d| >= 4 && s == "host-" + (d + ".example")
  }

  /** The same with `.g` and four digits or more in front of the end. */
  ghost predicate GroupedHost(s: string, d: string, g: string) {
    AllDigits(d) && |d| >= 4 && AllDigits(g) && |g| >= 4 && s == "host-" + (d + (".g" + (g + ".example")))
  }

  lemma PlainReads(s: string, d: string)
    requires PlainHost(s, d)
    ensures ReadHost(s) == Some((Read(d), None))
  {
    hide Read, Digits;
    Prefixed("host-", d + TAIL);
    Prefixed(d, TAIL);
    DigitsThen(d, TAIL);
  }

  lemma GroupedReads(s: string, d: string, g: string)
    requires GroupedHost(s, d, g)
    ensures ReadHost(s) == Some((Read(d), Some(Read(g))))
  {
    hide Read, ReadHost;
    ReadsBack(d, g);
  }

  lemma Parted(s: string, n: nat)
    requires n <= |s|
    ensures s == s[..n] + s[n..]
  {
  }

  /** What the tail reads. */
  lemma TailParts(rest: string)
    requires ReadTail(rest).Some?
    ensures rest == ".example" || exists g :: AllDigits(g) && |g| >= 4 && rest == ".g" + (g + ".example")
  {
    hide Read;
    if rest != TAIL {
      var g := Digits(rest[2..]);
      Parted(rest, 2);
      Parted(rest[2..], |g|);
      assert rest[2..][|g|..] == rest[2 + |g|..];
      assert rest == ".g" + (g + ".example");
    }
  }

  lemma HostSplits(s: string) returns (d: string, rest: string)
    requires ReadHost(s).Some?
    ensures AllDigits(d) && |d| >= 4 && ReadTail(rest).Some? && s == "host-" + (d + rest)
  {
    hide Read, ReadTail;
    Parted(s, 5);
    d := Digits(s[5..]);
    rest := s[5..][|d|..];
    Parted(s[5..], |d|);
  }

  lemma HostParts(s: string)
    requires ReadHost(s).Some?
    ensures (exists d :: PlainHost(s, d)) || (exists d, g :: GroupedHost(s, d, g))
  {
    hide ReadHost, ReadTail;
    var d, rest := HostSplits(s);
    TailParts(rest);
    if rest == ".example" {
      assert PlainHost(s, d);
    } else {
      var g :| AllDigits(g) && |g| >= 4 && rest == ".g" + (g + ".example");
      assert GroupedHost(s, d, g);
    }
  }

  /** The replaced hosts are these texts and no others. */
  lemma ReplacedHostIff(s: string)
    ensures ReadHost(s).Some? <==> (exists d :: PlainHost(s, d)) || (exists d, g :: GroupedHost(s, d, g))
  {
    hide ReadHost, PlainHost, GroupedHost;
    if ReadHost(s).Some? {
      HostParts(s);
    }
    if d :| PlainHost(s, d) {
      PlainReads(s, d);
    }
    if d, g :| GroupedHost(s, d, g) {
      GroupedReads(s, d, g);
    }
  }

  /** The replaced agents are `ua-` and two digits or more. */
  lemma ReplacedAgentIff(s: string)
    ensures ReadAgent(s).Some? <==> exists d :: AllDigits(d) && |d| >= 2 && s == "ua-" + d
  {
    hide Read;
    if ReadAgent(s).Some? {
      var d := Digits(s[3..]);
      Parted(s, 3);
      assert s == "ua-" + d;
    }
    if d :| AllDigits(d) && |d| >= 2 && s == "ua-" + d {
      assert s[3..] == d == d + [];
      DigitsThen(d, []);
    }
  }
}
