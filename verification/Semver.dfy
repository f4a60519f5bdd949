/** Version strings: decimal printing, and parsing of Semantic Versioning 2.0.0 strings
    (items 2, 9 and 10: three numeric identifiers, optional pre-release, optional build). */
module Semver {
  import opened Py

  // ---------------------------------------------------------------------- decimal numbers

  predicate IsDigit(c: char) { '0' <= c <= '9' }

  predicate AllDigits(s: string) { forall i :: 0 <= i < |s| ==> IsDigit(s[i]) }

  function Digit(d: nat): char
    requires d < 10
  {
    ('0' as int + d) as char
  }

  function PrintNat(n: nat): string {
    if n < 10 then [Digit(n)] else PrintNat(n / 10) + [Digit(n % 10)]
  }

  function PrintInt(n: int): string { if n < 0 then "-" + PrintNat(-n) else PrintNat(n) }

  function Value(s: string): nat
    requires AllDigits(s)
  {
    if s == [] then 0 else
    var n := |s| - 1;
    Value(s[..n]) * 10 + (s[n] as int - '0' as int)
  }

  /** A numeric identifier: digits without a leading zero. */
  predicate Numeric(s: string) {
    s != [] && AllDigits(s) && (s[0] == '0' ==> |s| == 1)
  }

  /** Printing yields a numeric identifier, and reading it back yields the number. */
  lemma {:induction false} PrintRead(n: nat)
    ensures Numeric(PrintNat(n)) && Value(PrintNat(n)) == n
    ensures n > 0 ==> PrintNat(n)[0] != '0'
  {
    if n < 10 {
      assert [Digit(n)][..0] == [];
    } else {
      PrintRead(n / 10);
      var init := PrintNat(n / 10);
      assert PrintNat(n) == init + [Digit(n % 10)];
      assert PrintNat(n)[..|init|] == init;
    }
  }

  // ------------------------------------------------------------------------------- marks

  /** Where the pre-release or build part starts. */
  function MarkOf(s: string): (r: nat)
    ensures r <= |s|
    ensures r < |s| ==> s[r] == '-' || s[r] == '+'
    ensures forall i :: 0 <= i < r ==> s[i] != '-' && s[i] != '+'
  {
    if s == [] then 0 else if s[0] == '-' || s[0] == '+' then 0 else 1 + MarkOf(s[1..])
  }

  // ------------------------------------------------------------------------------ parsing

  datatype Version = Version(major: nat, minor: nat, patch: nat, pre: string, build: string)

  predicate IdentifierChar(c: char) { IsDigit(c) || 'a' <= c <= 'z' || 'A' <= c <= 'Z' || c == '-' }

  /** The characters of identifiers, by their ASCII codes: digits, letters and the hyphen. */
  lemma {:induction false} IdentifierCodes(c: char)
    ensures var code := c as int;
      IdentifierChar(c) <==> 48 <= code <= 57 || 65 <= code <= 90 || 97 <= code <= 122 || code == 45
  {
  }

  predicate Identifier(s: string) { s != [] && forall i :: 0 <= i < |s| ==> IdentifierChar(s[i]) }

  predicate PreRelease(s: string) {
    var parts := Split(s, '.');
    forall i :: 0 <= i < |parts| ==> Identifier(parts[i]) && (AllDigits(parts[i]) ==> Numeric(parts[i]))
  }

  predicate Build(s: string) {
    var parts := Split(s, '.');
    forall i :: 0 <= i < |parts| ==> Identifier(parts[i])
  }

  predicate Core(s: string) {
    var parts := Split(s, '.');
    |parts| == 3 && Numeric(parts[0]) && Numeric(parts[1]) && Numeric(parts[2])
  }

  /** The text before and after the first plus sign. */
  function BeforePlus(u: string): string { u[..IndexOf(u, '+')] }

  function AfterPlus(u: string): string { if IndexOf(u, '+') < |u| then u[IndexOf(u, '+') + 1..] else "" }

  /** The tail after the core: nothing, "-pre", "+build" or "-pre+build". */
  predicate Tail(t: string) {
    if t == [] then true
    else if t[0] == '+' then Build(t[1..])
    else PreRelease(BeforePlus(t[1..])) && ('+' in t[1..] ==> Build(AfterPlus(t[1..])))
  }

  /** `semantic_version.Version(s)`, None where it raises ValueError. */
  function Parse(s: string): Option<Version> {
    var k := MarkOf(s);
    var core, t := s[..k], s[k..];
    if !Core(core) || !Tail(t) then None else
    var parts := Split(core, '.');
    Some(Version(Value(parts[0]), Value(parts[1]), Value(parts[2]), PreOf(t), BuildOf(t)))
  }

  /** The pre-release and the build in a tail. */
  function PreOf(t: string): string { if t != [] && t[0] == '-' then BeforePlus(t[1..]) else "" }

  function BuildOf(t: string): string {
    if t == [] then "" else if t[0] == '+' then t[1..] else AfterPlus(t[1..])
  }

  /** The text "a.b" for integers a and b. */
  function Dotted(a: int, b: int): string { PrintInt(a) + "." + PrintInt(b) }

  lemma {:induction false} PlainDigits(s: string)
    requires AllDigits(s)
    ensures '.' !in s && '-' !in s && '+' !in s
  {
  }

  lemma {:induction false} MarkNone(s: string)
    requires '-' !in s && '+' !in s
    ensures MarkOf(s) == |s|
  {
    assert forall i :: 0 <= i < |s| ==> s[i] in s;
  }

  lemma {:induction false} MarkAt(a: string, b: string)
    requires '-' !in a && '+' !in a
    ensures MarkOf(a + "-" + b) == |a|
  {
    var s := a + "-" + b;
    assert s[|a|] == '-';
    assert forall i :: 0 <= i < |a| ==> s[i] == a[i] && a[i] in a;
  }

  /** A string without marks is parsed as its three dotted numbers. */
  lemma {:induction false} ParsePlain(s: string, x: string, y: string, z: string)
    requires '-' !in s && '+' !in s && Split(s, '.') == [x, y, z]
    requires Numeric(x) && Numeric(y) && Numeric(z)
    ensures Parse(s) == Some(Version(Value(x), Value(y), Value(z), "", ""))
  {
    MarkNone(s);
    assert s[..|s|] == s && s[|s|..] == [];
  }

  /** What precedes the first mark must be a core. */
  lemma {:induction false} ParseBadCore(core: string, tail: string)
    requires '-' !in core && '+' !in core && !Core(core)
    ensures Parse(core + "-" + tail) == None
  {
    MarkAt(core, tail);
    assert (core + "-" + tail)[..|core|] == core;
  }

  /** "a.b.c" parses to (a, b, c). */
  lemma {:induction false} ParseThree(a: nat, b: nat, c: nat)
    ensures Parse(PrintNat(a) + "." + PrintNat(b) + "." + PrintNat(c)) == Some(Version(a, b, c, "", ""))
  {
    var x, y, z := PrintNat(a), PrintNat(b), PrintNat(c);
    PrintRead(a);
    PrintRead(b);
    PrintRead(c);
    PlainDigits(x);
    PlainDigits(y);
    PlainDigits(z);
    ThreeParts(x, y, z);
    ParsePlain(x + "." + y + "." + z, x, y, z);
  }

  lemma {:induction false} ThreeParts(x: string, y: string, z: string)
    requires '.' !in x && '.' !in y && '.' !in z
    ensures Split(x + "." + y + "." + z, '.') == [x, y, z]
  {
    assert x + "." + y + "." + z == x + ['.'] + (y + ['.'] + z);
    SplitHead(x, '.', y + ['.'] + z);
    SplitHead(y, '.', z);
    SplitNone(z, '.');
  }

  /** "a.b" is not a version by itself. */
  lemma {:induction false} ParseTwo(a: nat, b: nat)
    ensures Parse(PrintNat(a) + "." + PrintNat(b)) == None
  {
    var x, y := PrintNat(a), PrintNat(b);
    PrintRead(a);
    PrintRead(b);
    PlainDigits(x);
    PlainDigits(y);
    var s := x + "." + y;
    assert '-' !in s && '+' !in s;
    MarkNone(s);
    assert s[..|s|] == s;
    assert s == x + ['.'] + y;
    SplitHead(x, '.', y);
    SplitNone(y, '.');
  }

  lemma {:induction false} ParseMinusFirst(rest: string)
    ensures Parse("-" + rest) == None
  {
    SplitNone("", '.');
    assert "-" + rest == "" + "-" + rest;
    ParseBadCore("", rest);
  }

  lemma {:induction false} ParseMinusSecond(x: string, rest: string)
    requires AllDigits(x)
    ensures Parse(x + "." + "-" + rest) == None
  {
    PlainDigits(x);
    assert x + "." == x + ['.'] + "";
    SplitHead(x, '.', "");
    SplitNone("", '.');
    ParseBadCore(x + ".", rest);
  }

  lemma {:induction false} Regroup(a: string, b: string, c: string, d: string, e: string)
    ensures ((a + b) + c + d) + e == a + (b + c + d + e)
    ensures (a + b + (c + d)) + e == a + b + c + (d + e)
  {
  }

  /** A leading or inner minus sign leaves too few numbers before the pre-release mark. */
  lemma {:induction false} ParseNegative(a: int, b: int, rest: string)
    requires a < 0 || b < 0
    ensures Parse(Dotted(a, b) + rest) == None
  {
    if a < 0 {
      Regroup("-", PrintNat(-a), ".", PrintInt(b), rest);
      ParseMinusFirst(PrintNat(-a) + "." + PrintInt(b) + rest);
    } else {
      PrintRead(a);
      Regroup(PrintNat(a), ".", "-", PrintNat(-b), rest);
      ParseMinusSecond(PrintNat(a), PrintNat(-b) + rest);
    }
  }

  // ------------------------------------------------------- parsing and printing, in general

  /** The text of a version. */
  function Text(v: Version): string {
    PrintNat(v.major) + "." + PrintNat(v.minor) + "." + PrintNat(v.patch) + TailText(v.pre, v.build)
  }

  function TailText(pre: string, build: string): string {
    (if pre == "" then "" else "-" + pre) + if build == "" then "" else "+" + build
  }

  predicate WellFormed(v: Version) {
    (v.pre == "" || PreRelease(v.pre)) && (v.build == "" || Build(v.build))
  }

  /** A dotted list of identifiers is not empty and has no other characters. */
  lemma {:induction false} IdentifierChars(s: string)
    requires Build(s)
    ensures s != "" && forall k :: 0 <= k < |s| ==> s[k] == '.' || IdentifierChar(s[k])
    decreases |s|
  {
    var i, parts := IndexOf(s, '.'), Split(s, '.');
    assert Identifier(parts[0]);
    if i < |s| {
      var rest := s[i + 1..];
      assert forall j :: 0 <= j < |Split(rest, '.')| ==> Split(rest, '.')[j] == parts[j + 1];
      IdentifierChars(rest);
      assert s == s[..i] + [s[i]] + rest;
    }
  }

  lemma {:induction false} NoPlus(p: string)
    requires PreRelease(p)
    ensures p != "" && '+' !in p
  {
    IdentifierChars(p);
  }

  lemma {:induction false} AroundPlus(u: string)
    ensures u == BeforePlus(u) + if '+' in u then "+" + AfterPlus(u) else ""
    ensures '+' !in u ==> AfterPlus(u) == ""
  {
    var j := IndexOf(u, '+');
    if j < |u| { assert u == u[..j] + [u[j]] + u[j + 1..]; }
  }

  lemma {:induction false} PlusBetween(a: string, b: string)
    requires '+' !in a
    ensures BeforePlus(a) == a && AfterPlus(a) == ""
    ensures BeforePlus(a + ("+" + b)) == a && AfterPlus(a + ("+" + b)) == b && '+' in a + ("+" + b)
  {
    IndexAt(a, '+', b);
    assert a + ['+'] + b == a + ("+" + b);
    assert a[..|a|] == a;
  }

  /** Reading a numeric identifier and printing it gives it back. */
  lemma {:induction false} ReadPrint(x: string)
    requires Numeric(x)
    ensures PrintNat(Value(x)) == x
    ensures x[0] != '0' ==> Value(x) > 0
  {
    var n := |x| - 1;
    var d := x[n] as int - '0' as int;
    assert Digit(d) == x[n];
    if n == 0 {
      assert x[..0] == [];
      assert x == [x[0]];
    } else {
      ReadPrint(x[..n]);
      assert Value(x) / 10 == Value(x[..n]) && Value(x) % 10 == d;
      assert x == x[..n] + [x[n]];
    }
  }

  /** More than one part: the text before the first separator, and the parts of the rest. */
  lemma {:induction false} SplitFirst(s: string, c: char) returns (rest: string)
    requires |Split(s, c)| > 1
    ensures s == Split(s, c)[0] + [c] + rest && Split(rest, c) == Split(s, c)[1..]
  {
    var i := IndexOf(s, c);
    rest := s[i + 1..];
    assert s == s[..i] + [s[i]] + rest;
  }

  lemma {:induction false} CoreText(core: string)
    requires Core(core)
    ensures var parts := Split(core, '.');
      core == PrintNat(Value(parts[0])) + "." + PrintNat(Value(parts[1])) + "." + PrintNat(Value(parts[2]))
  {
    var parts := Split(core, '.');
    var r1 := SplitFirst(core, '.');
    var r2 := SplitFirst(r1, '.');
    assert r2 == parts[2];
    ReadPrint(parts[0]);
    ReadPrint(parts[1]);
    ReadPrint(parts[2]);
    Regroup3(parts[0], parts[1], parts[2]);
  }

  lemma {:induction false} Regroup3(x: string, y: string, z: string)
    ensures x + ['.'] + (y + ['.'] + z) == x + "." + y + "." + z
  {
  }

  lemma {:induction false} TailParts(t: string)
    requires Tail(t) && (t != [] ==> t[0] == '-' || t[0] == '+')
    ensures t == TailText(PreOf(t), BuildOf(t))
    ensures (PreOf(t) == "" || PreRelease(PreOf(t))) && (BuildOf(t) == "" || Build(BuildOf(t)))
  {
    if t != [] {
      var u := t[1..];
      assert t == [t[0]] + u;
      if t[0] == '+' {
        IdentifierChars(u);
      } else {
        NoPlus(BeforePlus(u));
        AroundPlus(u);
        if '+' in u { IdentifierChars(AfterPlus(u)); }
        PreTailText(u);
      }
    }
  }

  lemma {:induction false} PreTailText(u: string)
    requires BeforePlus(u) != "" && ('+' in u ==> AfterPlus(u) != "")
    ensures "-" + u == TailText(BeforePlus(u), AfterPlus(u))
  {
    AroundPlus(u);
  }

  /** PARSING IS EXACT, one way: what parses is the text of the version it parses to. */
  lemma {:induction false} ParseIsText(s: string)
    requires Parse(s).Some?
    ensures WellFormed(Parse(s).value) && Text(Parse(s).value) == s
  {
    var k := MarkOf(s);
    CoreText(s[..k]);
    TailParts(s[k..]);
    TextOfParts(Parse(s).value, s[..k], s[k..]);
    assert s == s[..k] + s[k..];
  }

  lemma {:induction false} TextOfParts(v: Version, core: string, tail: string)
    requires core == PrintNat(v.major) + "." + PrintNat(v.minor) + "." + PrintNat(v.patch)
    requires tail == TailText(v.pre, v.build)
    ensures Text(v) == core + tail
  {
  }

  lemma {:induction false} TailOfText(pre: string, build: string)
    requires (pre == "" || PreRelease(pre)) && (build == "" || Build(build))
    ensures var t := TailText(pre, build);
      Tail(t) && PreOf(t) == pre && BuildOf(t) == build && (t != [] ==> t[0] == '-' || t[0] == '+')
  {
    if pre != "" {
      PreTailOfText(pre, build);
    } else if build != "" {
      assert TailText(pre, build)[1..] == build;
    }
  }

  lemma {:induction false} PreTailOfText(pre: string, build: string)
    requires PreRelease(pre) && (build == "" || Build(build))
    ensures var t := "-" + pre + if build == "" then "" else "+" + build;
      Tail(t) && PreOf(t) == pre && BuildOf(t) == build
  {
    NoPlus(pre);
    PlusBetween(pre, build);
    if build == "" {
      assert ("-" + pre + "")[1..] == pre;
    } else {
      assert ("-" + pre + ("+" + build))[1..] == pre + ("+" + build);
    }
  }

  lemma {:induction false} MarkBefore(core: string, t: string)
    requires '-' !in core && '+' !in core && (t != [] ==> t[0] == '-' || t[0] == '+')
    ensures MarkOf(core + t) == |core| && (core + t)[..|core|] == core && (core + t)[|core|..] == t
  {
    var s := core + t;
    assert forall i :: 0 <= i < |core| ==> s[i] == core[i] && core[i] in core;
    if t != [] { assert s[|core|] == t[0]; }
  }

  /** PARSING IS EXACT, the other way: the text of a well-formed version, with any pre-release and
      build, parses to that version. */
  lemma {:induction false} TextParses(v: Version)
    requires WellFormed(v)
    ensures Parse(Text(v)) == Some(v)
  {
    var x, y, z := PrintNat(v.major), PrintNat(v.minor), PrintNat(v.patch);
    PrintRead(v.major);
    PrintRead(v.minor);
    PrintRead(v.patch);
    PlainDigits(x);
    PlainDigits(y);
    PlainDigits(z);
    ThreeParts(x, y, z);
    TailOfText(v.pre, v.build);
    MarkBefore(x + "." + y + "." + z, TailText(v.pre, v.build));
  }
}
