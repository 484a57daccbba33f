/** Boolean tokens of labels and annotations (src/config.rs). */
module Tokens {
  import opened Prelude
  import opened Routes

  predicate IsSpace(c: char) {
    c == ' ' || '\t' <= c <= '\r'
  }

  function TrimStart(s: string): string {
    if s != "" && IsSpace(s[0]) then TrimStart(s[1..]) else s
  }

  function TrimEnd(s: string): string {
    if s != "" && IsSpace(s[|s| - 1]) then TrimEnd(s[..|s| - 1]) else s
  }

  function Lower(s: string): (t: string)
    ensures |t| == |s|
  {
    seq(|s|, i requires 0 <= i < |s| => LowerChar(s[i]))
  }

  function ParseBool(s: string): Option<bool> {
    var t := Lower(TrimStart(TrimEnd(s)));
    if t == "1" || t == "true" || t == "yes" || t == "on" then Some(true)
    else if t == "0" || t == "false" || t == "no" || t == "off" then Some(false)
    else None
  }

  /** A key that is absent reads as nothing. */
  function Get(m: map<string, string>, k: string): Option<string> {
    if k in m then Some(m[k]) else None
  }

  function GetBool(m: map<string, string>, k: string): Option<bool> {
    if k in m then ParseBool(m[k]) else None
  }

  function BoolText(b: bool): string {
    if b then "true" else "false"
  }

  lemma {:induction false} BoolReadsBack()
    ensures ParseBool("true") == Some(true)
    ensures ParseBool("false") == Some(false)
  {
    assert Lower("true") == "true" && Lower("false") == "false";
  }

  // ----- what a token says

  const UPPER: string := "ABCDEFGHIJKLMNOPQRSTUVWXYZ"
  const LOWER: string := "abcdefghijklmnopqrstuvwxyz"

  /** Lower case changes the capital letters to the small ones, and nothing else. */
  lemma {:induction false} LowerCharTable(c: char)
    ensures forall i :: 0 <= i < 26 ==> LowerChar(UPPER[i]) == LOWER[i]
    ensures c !in UPPER ==> LowerChar(c) == c
  {
    if 'A' <= c <= 'Z' {
      assert UPPER[(c - 'A') as int] == c;
    }
  }

  predicate AllSpace(s: string) {
    forall i :: 0 <= i < |s| ==> IsSpace(s[i])
  }

  /** `s` is one of `tokens`, in any case, with white space around it. */
  ghost predicate Says(s: string, tokens: seq<string>) {
    exists a, core, b :: SaysAs(s, tokens, a, core, b)
  }

  predicate SaysAs(s: string, tokens: seq<string>, a: string, core: string, b: string) {
    s == a + core + b && AllSpace(a) && AllSpace(b) && Lower(core) in tokens
  }

  const TRUE_TOKENS: seq<string> := ["1", "true", "yes", "on"]
  const FALSE_TOKENS: seq<string> := ["0", "false", "no", "off"]

  lemma {:induction false} TrimEndMeans(s: string)
    ensures var t := TrimEnd(s);
            t <= s && AllSpace(s[|t|..]) && (t != "" ==> !IsSpace(t[|t| - 1]))
  {
    if s != "" && IsSpace(s[|s| - 1]) {
      var init := s[..|s| - 1];
      TrimEndMeans(init);
      var t := TrimEnd(init);
      assert forall i :: |t| <= i < |init| ==> s[i] == init[|t|..][i - |t|];
    }
  }

  lemma {:induction false} TrimStartMeans(s: string)
    ensures var t := TrimStart(s);
            |t| <= |s| && s[|s| - |t|..] == t && AllSpace(s[..|s| - |t|]) && (t != "" ==> !IsSpace(t[0]))
  {
    if s != "" && IsSpace(s[0]) {
      var rest := s[1..];
      TrimStartMeans(rest);
      var t := TrimStart(rest);
      assert forall i :: 1 <= i < |s| - |t| ==> s[i] == rest[..|rest| - |t|][i - 1];
      assert s[|s| - |t|..] == rest[|rest| - |t|..];
    }
  }

  lemma {:induction false} TrimEndOver(x: string, b: string)
    requires AllSpace(b) && (x == "" || !IsSpace(x[|x| - 1]))
    ensures TrimEnd(x + b) == x
    decreases |b|
  {
    if b == "" {
      assert x + b == x;
    } else {
      var init := b[..|b| - 1];
      assert (x + b)[..|x + b| - 1] == x + init;
      TrimEndOver(x, init);
    }
  }

  lemma {:induction false} TrimStartOver(a: string, x: string)
    requires AllSpace(a) && (x == "" || !IsSpace(x[0]))
    ensures TrimStart(a + x) == x
    decreases |a|
  {
    if a == "" {
      assert a + x == x;
    } else {
      assert (a + x)[1..] == a[1..] + x;
      TrimStartOver(a[1..], x);
    }
  }

  /** The first and last characters of a token are not white space. */
  lemma {:induction false} TokenEnds(core: string, t: string)
    requires Lower(core) == t && t != "" && !IsSpace(t[0]) && !IsSpace(t[|t| - 1])
    ensures core != "" && !IsSpace(core[0]) && !IsSpace(core[|core| - 1])
  {
    assert LowerChar(core[0]) == t[0] && LowerChar(core[|core| - 1]) == t[|t| - 1];
  }

  lemma {:induction false} TrimFinds(s: string, a: string, core: string, b: string)
    requires s == a + core + b && AllSpace(a) && AllSpace(b)
    requires core != "" && !IsSpace(core[0]) && !IsSpace(core[|core| - 1])
    ensures TrimStart(TrimEnd(s)) == core
  {
    hide IsSpace, TrimStart, TrimEnd;
    TrimEndOver(a + core, b);
    TrimStartOver(a, core);
  }

  lemma {:induction false} TrimSplits(s: string) returns (a: string, b: string)
    ensures s == a + TrimStart(TrimEnd(s)) + b && AllSpace(a) && AllSpace(b)
  {
    hide TrimStart, TrimEnd, AllSpace;
    var e := TrimEnd(s);
    var t := TrimStart(e);
    TrimEndMeans(s);
    TrimStartMeans(e);
    a, b := e[..|e| - |t|], s[|e|..];
    assert e == a + t;
    assert s == e + b;
  }

  /** Tokens read as the lists say, in any case and with white space around them; nothing else
      reads as anything. */
  lemma {:induction false} ParseBoolMeans(s: string)
    ensures ParseBool(s) == Some(true) <==> Says(s, TRUE_TOKENS)
    ensures ParseBool(s) == Some(false) <==> Says(s, FALSE_TOKENS)
  {
    hide Lower, TrimStart, TrimEnd, AllSpace;
    var core := TrimStart(TrimEnd(s));
    var a, b := TrimSplits(s);
    assert SaysAs(s, TRUE_TOKENS, a, core, b) <==> Lower(core) in TRUE_TOKENS;
    assert SaysAs(s, FALSE_TOKENS, a, core, b) <==> Lower(core) in FALSE_TOKENS;
    forall a', core', b', tokens | SaysAs(s, tokens, a', core', b') && (tokens == TRUE_TOKENS || tokens == FALSE_TOKENS)
      ensures core' == core
    {
      assert Lower(core') in ["1", "true", "yes", "on", "0", "false", "no", "off"];
      TokenEnds(core', Lower(core'));
      TrimFinds(s, a', core', b');
    }
  }
}
