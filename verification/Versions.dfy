/** OCP to HyperConverged version translation and back. */
module Versions {
  import opened Py
  import opened Semver

  /** The missing patch component is completed with ".0". */
  function Completed(s: string): string { if Parse(s).Some? then s else s + ".0" }

  /** `_normalize_ocp_version`: OCP 5.x and later continue the 4.x series, 23 minors per major. */
  function Normalize(s: string): Option<Version> {
    var v := Parse(Completed(s));
    if v.None? then None else InFourSeries(v.value)
  }

  function InFourSeries(v: Version): Option<Version> {
    if v.major >= 5 then Parse("4." + PrintNat(23 + (v.major - 5) * 23 + v.minor) + ".0") else Some(v)
  }

  /** `get_hyperconverged_corresponding_version`; None where it raises ValueError. */
  function ToHyperConverged(s: string): Option<string> {
    var v := Normalize(s);
    if v.None? then None else Some(Dotted(v.value.major - 3, v.value.minor - 4))
  }

  /** The numbers of the second translation: a minor of 23 or more rolls over into majors 5, 6, ... */
  function BackMajor(a: nat, b: nat): nat { if b + 4 >= 23 then 5 + (b + 4 - 23) / 23 else a + 3 }

  function BackMinor(b: nat): nat { if b + 4 >= 23 then (b + 4 - 23) % 23 else b + 4 }

  /** `get_ocp_corresponding_version` */
  function ToOcp(s: string): Option<string> {
    var v := Parse(Completed(s));
    if v.None? then None
    else Some(Dotted(BackMajor(v.value.major, v.value.minor), BackMinor(v.value.minor)))
  }

  // --------------------------------------------------------------------------- text level

  /** A printed pair of naturals is read back after completion; any other pair is rejected. */
  lemma {:induction false} DottedReads(a: int, b: int)
    ensures a >= 0 && b >= 0 ==> Parse(Completed(Dotted(a, b))) == Some(Version(a, b, 0, "", ""))
    ensures a < 0 || b < 0 ==> Parse(Completed(Dotted(a, b))) == None
  {
    if a >= 0 && b >= 0 {
      ParseTwo(a, b);
      ParseThree(a, b, 0);
      assert Dotted(a, b) + ".0" == PrintNat(a) + "." + PrintNat(b) + "." + PrintNat(0);
    } else {
      ParseNegative(a, b, "");
      assert Dotted(a, b) + "" == Dotted(a, b);
      ParseNegative(a, b, ".0");
    }
  }

  /** Different pairs of naturals print differently. */
  lemma {:induction false} DottedInjective(a: nat, b: nat, c: nat, d: nat)
    ensures Dotted(a, b) == Dotted(c, d) <==> a == c && b == d
  {
    DottedReads(a, b);
    DottedReads(c, d);
  }

  /** What the first translation computes, on the numbers of a valid OCP version string. */
  function HcMajor(major: nat): int { if major >= 5 then 1 else major - 3 }

  function HcMinor(major: nat, minor: nat): int {
    (if major >= 5 then 23 + (major - 5) * 23 + minor else minor) - 4
  }

  lemma {:induction false} NormalForm(v: Version)
    ensures InFourSeries(v) ==
      Some(if v.major >= 5 then Version(4, 23 + (v.major - 5) * 23 + v.minor, 0, "", "") else v)
  {
    if v.major >= 5 { FourText(23 + (v.major - 5) * 23 + v.minor); }
  }

  lemma {:induction false} TextOf(s: string, w: Version, a: int, b: int)
    requires Normalize(s) == Some(w) && a == w.major - 3 && b == w.minor - 4
    ensures ToHyperConverged(s) == Some(Dotted(a, b))
  {
  }

  lemma {:induction false} ForwardText(s: string, v: Version)
    requires Parse(Completed(s)) == Some(v)
    ensures ToHyperConverged(s) == Some(Dotted(HcMajor(v.major), HcMinor(v.major, v.minor)))
  {
    NormalForm(v);
    TextOf(s, InFourSeries(v).value, HcMajor(v.major), HcMinor(v.major, v.minor));
  }

  /** Full version strings, with any patch, pre-release and build, are translated by their major and
      minor numbers, in both directions. */
  lemma {:induction false} FullVersions(v: Version)
    requires WellFormed(v)
    ensures ToHyperConverged(Text(v)) == Some(Dotted(HcMajor(v.major), HcMinor(v.major, v.minor)))
    ensures ToOcp(Text(v)) == Some(Dotted(BackMajor(v.major, v.minor), BackMinor(v.minor)))
  {
    TextParses(v);
    ForwardText(Text(v), v);
  }

  /** Nightly builds such as "5.0.0-0.nightly-...": zero, a dot, and a name of identifier characters. */
  lemma {:induction false} Nightly(major: nat, minor: nat, patch: nat, name: string)
    requires Identifier(name) && !AllDigits(name)
    ensures var v := Version(major, minor, patch, "0" + ['.'] + name, "");
      WellFormed(v) && ToHyperConverged(Text(v)) == Some(Dotted(HcMajor(major), HcMinor(major, minor)))
  {
    TwoIdentifiers("0", name);
    FullVersions(Version(major, minor, patch, "0" + ['.'] + name, ""));
  }

  lemma {:induction false} TwoIdentifiers(a: string, b: string)
    requires Identifier(a) && (AllDigits(a) ==> Numeric(a))
    requires Identifier(b) && (AllDigits(b) ==> Numeric(b))
    ensures PreRelease(a + ['.'] + b)
  {
    SplitHead(a, '.', b);
    SplitNone(b, '.');
  }

  lemma {:induction false} FourText(n: nat)
    ensures Parse("4." + PrintNat(n) + ".0") == Some(Version(4, n, 0, "", ""))
  {
    ParseThree(4, n, 0);
    assert PrintNat(4) == "4" && PrintNat(0) == "0";
    Quoted(PrintNat(n));
  }

  lemma {:induction false} Quoted(x: string)
    ensures "4." + x + ".0" == "4" + "." + x + "." + "0"
  {
  }

  lemma {:induction false} ForthAndBack(major: nat, minor: nat)
    requires HcMajor(major) >= 0 && HcMinor(major, minor) >= 0
    ensures var a, b := HcMajor(major), HcMinor(major, minor);
      BackMajor(a, b) == major && BackMinor(b) == minor <==> minor < 23
  {
  }

  lemma {:induction false} BackAndForth(a: nat, b: nat)
    ensures var major, minor := BackMajor(a, b), BackMinor(b);
      && HcMajor(major) >= 0 && HcMinor(major, minor) >= 0
      && (HcMajor(major) == a && HcMinor(major, minor) == b <==> a == 1 || (a == 0 && b < 19))
  {
  }

  // --------------------------------------------------------------------------- round trips

  /** ROUND TRIP from OCP: for every valid OCP version M.m, whatever its patch and pre-release,
      translating to HyperConverged and back gives "M.m" exactly when m < 23 and either
      M >= 5, or M is 3 or 4 and m >= 4. */
  lemma {:induction false} OcpRoundTrip(s: string, v: Version)
    requires Parse(Completed(s)) == Some(v)
    ensures ToHyperConverged(s).Some?
    ensures ToOcp(ToHyperConverged(s).value) == Some(Dotted(v.major, v.minor)) <==>
      v.minor < 23 && (v.major >= 5 || (v.major >= 3 && v.minor >= 4))
  {
    var a, b := HcMajor(v.major), HcMinor(v.major, v.minor);
    ForwardText(s, v);
    DottedReads(a, b);
    if a >= 0 && b >= 0 {
      DottedInjective(BackMajor(a, b), BackMinor(b), v.major, v.minor);
      ForthAndBack(v.major, v.minor);
    }
  }

  /** ROUND TRIP from HyperConverged: for every valid version j.k the way to OCP and back gives
      "j.k" exactly when j is 1, or j is 0 and k < 19. */
  lemma {:induction false} HyperConvergedRoundTrip(s: string, v: Version)
    requires Parse(Completed(s)) == Some(v)
    ensures ToOcp(s).Some?
    ensures ToHyperConverged(ToOcp(s).value) == Some(Dotted(v.major, v.minor)) <==>
      v.major == 1 || (v.major == 0 && v.minor < 19)
  {
    var a, b := BackMajor(v.major, v.minor), BackMinor(v.minor);
    DottedReads(a, b);
    ForwardText(Dotted(a, b), Version(a, b, 0, "", ""));
    BackAndForth(v.major, v.minor);
    DottedInjective(HcMajor(a), HcMinor(a, b), v.major, v.minor);
  }

  /** ORDER: on 4.4 up to 4.22 and M.0 up to M.22 for M >= 5 the result is "1.k" with k >= 0, and k
      grows strictly with the OCP version. */
  lemma {:induction false} OrderPreserved(s: string, v: Version, t: string, w: Version)
    requires Parse(Completed(s)) == Some(v) && Parse(Completed(t)) == Some(w)
    requires v.minor < 23 && (v.major >= 5 || (v.major == 4 && v.minor >= 4))
    requires w.minor < 23 && (w.major >= 5 || (w.major == 4 && w.minor >= 4))
    ensures exists k: nat, n: nat ::
      && ToHyperConverged(s) == Some(Dotted(1, k)) && ToHyperConverged(t) == Some(Dotted(1, n))
      && (k < n <==> v.major < w.major || (v.major == w.major && v.minor < w.minor))
  {
    ForwardText(s, v);
    ForwardText(t, w);
    var k, n := HcMinor(v.major, v.minor), HcMinor(w.major, w.minor);
    assert k < n <==> v.major < w.major || (v.major == w.major && v.minor < w.minor);
  }

  /** OCP 4.23 is outside the domain of the round trip: it comes back as 5.0. */
  lemma {:induction false} FourTwentyThree()
    ensures ToHyperConverged("4.23") == Some("1.19") && ToOcp("1.19") == Some("5.0")
  {
    PrintTwoDigits(23);
    PrintTwoDigits(19);
    assert "4.23" == Dotted(4, 23) && "1.19" == Dotted(1, 19) && "5.0" == Dotted(5, 0);
    DottedReads(4, 23);
    DottedReads(1, 19);
    ForwardText("4.23", Version(4, 23, 0, "", ""));
  }

  /** HyperConverged 2.0 is outside the domain of the other round trip: it becomes OCP 5.4, which
      is HyperConverged 1.23. */
  lemma {:induction false} TwoZero()
    ensures ToOcp("2.0") == Some("5.4") && ToHyperConverged("5.4") == Some("1.23")
  {
    PrintTwoZero();
    BackFromTwo("2.0");
    ForthFromFive("5.4");
  }

  lemma {:induction false} BackFromTwo(s: string)
    requires s == Dotted(2, 0)
    ensures ToOcp(s) == Some(Dotted(5, 4))
  {
    DottedReads(2, 0);
  }

  lemma {:induction false} ForthFromFive(s: string)
    requires s == Dotted(5, 4)
    ensures ToHyperConverged(s) == Some(Dotted(1, 23))
  {
    DottedReads(5, 4);
    ForwardText(s, Version(5, 4, 0, "", ""));
  }

  lemma {:induction false} PrintTwoZero()
    ensures Dotted(2, 0) == "2.0" && Dotted(5, 4) == "5.4" && Dotted(1, 23) == "1.23"
  {
    PrintTwoDigits(23);
  }

  lemma {:induction false} PrintTwoDigits(n: nat)
    requires 10 <= n < 100
    ensures PrintNat(n) == [Digit(n / 10), Digit(n % 10)]
  {
  }
}
