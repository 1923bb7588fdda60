/**
 The few functions of Go's `strings` package the program relies on.
 A Go string is a sequence of bytes; here every byte is a character below 256.
 */
module GoStrings {

  predicate IsByteString(s: string) {
    forall i | 0 <= i < |s| :: s[i] as int < 256
  }

  type GoString = s: string | IsByteString(s) witness ""

  /** First result of `strings.Cut`, and `strings.Split(s, sep)[0]`. */
  function Before(s: string, sep: char): (t: string)
    ensures |t| <= |s| && t == s[..|t|] && sep !in t
    ensures |t| < |s| ==> s[|t|] == sep
  {
    if |s| == 0 || s[0] == sep then "" else [s[0]] + Before(s[1..], sep)
  }

  lemma BeforeUnique(s: string, t: string, sep: char)
    requires t <= s && sep !in t && (|t| < |s| ==> s[|t|] == sep)
    ensures Before(s, sep) == t
  {
    var b := Before(s, sep);
    assert forall i | 0 <= i < |t| :: t[i] == s[i] != sep;
    assert forall i | 0 <= i < |b| :: b[i] == s[i] != sep;
  }

  /** `strings.SplitN` for a positive limit. */
  function SplitN(s: string, sep: char, n: nat): (parts: seq<string>)
    requires n > 0
    ensures 1 <= |parts| <= n
  {
    var head := Before(s, sep);
    if n == 1 || |head| == |s| then [s]
    else [head] + SplitN(s[|head| + 1..], sep, n - 1)
  }

  lemma SplitNCons(head: string, rest: string, sep: char, n: nat)
    requires sep !in head && n > 1
    ensures SplitN(head + [sep] + rest, sep, n) == [head] + SplitN(rest, sep, n - 1)
  {
    var s := head + [sep] + rest;
    BeforeUnique(s, head, sep);
    assert s[|head| + 1..] == rest;
  }

  /** `strings.Split`. */
  function Split(s: string, sep: char): (parts: seq<string>)
    ensures |parts| > 0
    decreases |s|
  {
    var head := Before(s, sep);
    if |head| == |s| then [s] else [head] + Split(s[|head| + 1..], sep)
  }

  lemma SplitToken(s: string, sep: char)
    requires sep !in s
    ensures Split(s, sep) == [s]
  {
    BeforeUnique(s, s, sep);
  }

  lemma {:induction false} SplitConcat(a: string, b: string, sep: char)
    ensures Split(a + [sep] + b, sep) == Split(a, sep) + Split(b, sep)
    decreases |a|
  {
    var s := a + [sep] + b;
    var head := Before(a, sep);
    BeforeUnique(s, head, sep);
    if |head| == |a| {
      assert s[|head| + 1..] == b;
      assert head == a;
    } else {
      var rest := a[|head| + 1..];
      assert s[|head| + 1..] == rest + [sep] + b;
      SplitConcat(rest, b, sep);
    }
  }

  /** Byte width of the white-space character a string starts with; 0 if there is none. */
  function SpaceWidth(s: string): (w: nat)
    ensures w <= |s| && w <= 3
  {
    if |s| >= 1 && s[0] as int in {9, 10, 11, 12, 13, 32} then 1
    else if |s| >= 2 && s[0] as int == 0xC2 && s[1] as int in {0x85, 0xA0} then 2
    else if |s| >= 3 && WideSpace(s[0] as int, s[1] as int, s[2] as int) then 3
    else 0
  }

  /** The three-byte UTF-8 encodings of Unicode's White_Space characters. */
  predicate WideSpace(a: int, b: int, c: int) {
    || (a == 0xE1 && b == 0x9A && c == 0x80)
    || (a == 0xE2 && b == 0x80 && (0x80 <= c <= 0x8A || c in {0xA8, 0xA9, 0xAF}))
    || (a == 0xE2 && b == 0x81 && c == 0x9F)
    || (a == 0xE3 && b == 0x80 && c == 0x80)
  }

  function TrimLeft(s: string): (t: string)
    ensures |t| <= |s| && SpaceWidth(t) == 0
    ensures forall c :: c in t ==> c in s
  {
    if SpaceWidth(s) == 0 then s else TrimLeft(s[SpaceWidth(s)..])
  }

  predicate EndsInSpace(s: string, w: nat) {
    1 <= w <= |s| && SpaceWidth(s[|s| - w..]) == w
  }

  function TrimRight(s: string): (t: string)
    ensures t <= s && forall w :: !EndsInSpace(t, w)
  {
    if EndsInSpace(s, 1) then TrimRight(s[..|s| - 1])
    else if EndsInSpace(s, 2) then TrimRight(s[..|s| - 2])
    else if EndsInSpace(s, 3) then TrimRight(s[..|s| - 3])
    else s
  }

  /** `strings.TrimSpace`. */
  function TrimSpace(s: string): (t: string)
    ensures |t| <= |s|
    ensures forall c :: c in t ==> c in s
  {
    TrimRight(TrimLeft(s))
  }

  lemma TrimSpaceIdempotent(s: string)
    ensures TrimSpace(TrimSpace(s)) == TrimSpace(s)
  {
    var u := TrimLeft(s);
    var t := TrimRight(u);
    assert SpaceWidth(t) == 0;
    assert TrimLeft(t) == t;
    assert !EndsInSpace(t, 1) && !EndsInSpace(t, 2) && !EndsInSpace(t, 3);
  }

  predicate IsSpaceChar(c: string) {
    c != "" && SpaceWidth(c) == |c|
  }

  predicate Spaces(cs: seq<string>) {
    forall i | 0 <= i < |cs| :: IsSpaceChar(cs[i])
  }

  function Concat(cs: seq<string>): string {
    if |cs| == 0 then "" else Concat(cs[..|cs| - 1]) + cs[|cs| - 1]
  }

  lemma ConcatSnoc(cs: seq<string>, c: string)
    ensures Concat(cs + [c]) == Concat(cs) + c
  {
    assert (cs + [c])[..|cs|] == cs;
  }

  lemma {:induction false} ConcatCons(c: string, cs: seq<string>)
    ensures Concat([c] + cs) == c + Concat(cs)
  {
    if |cs| == 0 {
      ConcatSnoc([], c);
      assert [c] + cs == [] + [c];
    } else {
      var init, last := cs[..|cs| - 1], cs[|cs| - 1];
      ConcatCons(c, init);
      ConcatSnoc([c] + init, last);
      assert [c] + cs == ([c] + init) + [last];
      Reassociate(c, Concat(init), last);
    }
  }

  lemma FirstSpace(s: string)
    requires SpaceWidth(s) > 0
    ensures IsSpaceChar(s[..SpaceWidth(s)])
  {}

  lemma {:induction false} TrimLeftMeaning(s: string) returns (left: seq<string>)
    ensures s == Concat(left) + TrimLeft(s) && Spaces(left)
  {
    left := [];
    if SpaceWidth(s) > 0 {
      var c, rest := s[..SpaceWidth(s)], s[SpaceWidth(s)..];
      FirstSpace(s);
      var more := TrimLeftMeaning(rest);
      ConcatCons(c, more);
      Reassociate(c, Concat(more), TrimLeft(s));
      left := [c] + more;
      assert s == c + rest;
    }
  }

  lemma Reassociate(a: string, b: string, c: string)
    ensures (a + b) + c == a + (b + c)
  {}

  lemma LastSpace(s: string, w: nat)
    requires EndsInSpace(s, w)
    ensures IsSpaceChar(s[|s| - w..]) && s == s[..|s| - w] + s[|s| - w..]
  {}

  /** One step of `TrimRight`. */
  lemma TrimRightStep(s: string) returns (w: nat)
    ensures w == 0 ==> TrimRight(s) == s
    ensures w > 0 ==> EndsInSpace(s, w) && TrimRight(s) == TrimRight(s[..|s| - w])
  {
    w := if EndsInSpace(s, 1) then 1 else if EndsInSpace(s, 2) then 2 else if EndsInSpace(s, 3) then 3 else 0;
  }

  lemma OneMoreSpace(s: string, t: string, more: seq<string>, w: nat)
    requires EndsInSpace(s, w) && s[..|s| - w] == t + Concat(more) && Spaces(more)
    ensures s == t + Concat(more + [s[|s| - w..]]) && Spaces(more + [s[|s| - w..]])
  {
    var c := s[|s| - w..];
    LastSpace(s, w);
    ConcatSnoc(more, c);
    Reassociate(t, Concat(more), c);
  }

  lemma {:induction false} TrimRightMeaning(s: string) returns (right: seq<string>)
    ensures s == TrimRight(s) + Concat(right) && Spaces(right)
  {
    var w := TrimRightStep(s);
    if w == 0 {
      right := [];
    } else {
      right := TrimRightMeaning(s[..|s| - w]);
      OneMoreSpace(s, TrimRight(s), right, w);
      right := right + [s[|s| - w..]];
    }
  }

  /** Trimming removes the white-space characters at both ends, and nothing else. */
  lemma TrimSpaceMeaning(s: string) returns (left: seq<string>, right: seq<string>)
    ensures s == Concat(left) + (TrimSpace(s) + Concat(right)) && Spaces(left) && Spaces(right)
    ensures SpaceWidth(TrimSpace(s)) == 0 && forall w :: !EndsInSpace(TrimSpace(s), w)
  {
    left := TrimLeftMeaning(s);
    right := TrimRightMeaning(TrimLeft(s));
    TrimRightKeepsStart(TrimLeft(s));
  }

  lemma TrimRightKeepsStart(u: string)
    requires SpaceWidth(u) == 0
    ensures SpaceWidth(TrimRight(u)) == 0
  {}
}
