/** Two UTF-8 decoders that must agree: the streaming one that feeds the console byte by byte,
    and `char_at` over a whole buffer; and moving by characters in both directions. */
module Utf8 {
  import opened Bytes

  const REPLACEMENT := 0xFFFD

  /** The length a lead byte announces; 0 for a byte that cannot lead. */
  function Need(b: byte): (n: nat)
    ensures n <= 4
  {
    if b <= 0x7F then 1
    else if 0xC2 <= b <= 0xDF then 2
    else if 0xE0 <= b <= 0xEF then 3
    else if 0xF0 <= b <= 0xF4 then 4
    else 0
  }

  predicate Continuation(b: byte) { 0x80 <= b <= 0xBF }

  /** One well-formed character, in the syntax of section 4 of RFC 3629. */
  predicate WellFormed(s: seq<byte>) {
    && 1 <= |s| <= 4 && Need(s[0]) == |s|
    && (forall i :: 1 <= i < |s| ==> Continuation(s[i]))
    && (s[0] == 0xE0 ==> s[1] >= 0xA0) && (s[0] == 0xED ==> s[1] <= 0x9F)
    && (s[0] == 0xF0 ==> s[1] >= 0x90) && (s[0] == 0xF4 ==> s[1] <= 0x8F)
  }

  /** Its code point. */
  function CodePoint(s: seq<byte>): (c: nat)
    requires WellFormed(s)
    ensures c <= 0x10FFFF && !(0xD800 <= c <= 0xDFFF)
    ensures |s| == (if c < 0x80 then 1 else if c < 0x800 then 2 else if c < 0x10000 then 3 else 4)
  {
    match |s|
    case 1 => s[0]
    case 2 => (s[0] as int - 0xC0) * 64 + (s[1] as int - 0x80)
    case 3 => (s[0] as int - 0xE0) * 4096 + (s[1] as int - 0x80) * 64 + (s[2] as int - 0x80)
    case _ =>
      (s[0] as int - 0xF0) * 262144 + (s[1] as int - 0x80) * 4096 + (s[2] as int - 0x80) * 64 + (s[3] as int - 0x80)
  }

  /** A Unicode scalar value. */
  predicate Scalar(c: nat) { c <= 0x10FFFF && !(0xD800 <= c <= 0xDFFF) }

  /** The encoding of a character, as in section 3 of RFC 3629. */
  function Encode(c: nat): (s: seq<byte>)
    requires Scalar(c)
  {
    if c < 0x80 then [c]
    else if c < 0x800 then [0xC0 + c / 64, 0x80 + c % 64]
    else if c < 0x10000 then [0xE0 + c / 4096, 0x80 + c / 64 % 64, 0x80 + c % 64]
    else [0xF0 + c / 262144, 0x80 + c / 4096 % 64, 0x80 + c / 64 % 64, 0x80 + c % 64]
  }

  /** A number in base 64. */
  lemma Base64(c: nat)
    ensures c == c / 64 * 64 + c % 64 && c / 64 == c / 4096 * 64 + c / 64 % 64
    ensures c / 4096 == c / 262144 * 64 + c / 4096 % 64
    ensures c == c / 4096 * 4096 + c / 64 % 64 * 64 + c % 64
    ensures c == c / 262144 * 262144 + c / 4096 % 64 * 4096 + c / 64 % 64 * 64 + c % 64
  {
  }

  /** Every character's encoding is well formed and reads as that character. */
  lemma EncodedReads(c: nat)
    requires Scalar(c)
    ensures WellFormed(Encode(c)) && CodePoint(Encode(c)) == c
  {
    Base64(c);
    var s := Encode(c);
    if c < 0x80 {
      assert s[0] == c;
    } else if c < 0x800 {
      assert 2 <= c / 64 < 32;
    } else if c < 0x10000 {
      assert c / 4096 < 16;
    } else {
      assert c / 262144 < 5;
    }
  }

  lemma ReadsEncoded2(s: seq<byte>)
    requires WellFormed(s) && |s| == 2
    ensures Encode(CodePoint(s)) == s
  {
    var c := CodePoint(s);
    assert c / 64 == s[0] as int - 0xC0;
    assert s == [s[0], s[1]];
  }

  lemma ReadsEncoded3(s: seq<byte>)
    requires WellFormed(s) && |s| == 3
    ensures Encode(CodePoint(s)) == s
  {
    var c := CodePoint(s);
    assert c / 64 == (s[0] as int - 0xE0) * 64 + (s[1] as int - 0x80);
    assert c / 4096 == s[0] as int - 0xE0;
    assert s == [s[0], s[1], s[2]];
  }

  lemma ReadsEncoded4(s: seq<byte>)
    requires WellFormed(s) && |s| == 4
    ensures Encode(CodePoint(s)) == s
  {
    var c := CodePoint(s);
    assert c / 64 == (s[0] as int - 0xF0) * 4096 + (s[1] as int - 0x80) * 64 + (s[2] as int - 0x80);
    assert c / 4096 == (s[0] as int - 0xF0) * 64 + (s[1] as int - 0x80);
    assert c / 262144 == s[0] as int - 0xF0;
    assert s == [s[0], s[1], s[2], s[3]];
  }

  /** Every well-formed sequence is the encoding of the character it reads as. */
  lemma ReadsEncoded(s: seq<byte>)
    requires WellFormed(s)
    ensures Encode(CodePoint(s)) == s
  {
    match |s|
    case 1 => assert s == [s[0]];
    case 2 => ReadsEncoded2(s);
    case 3 => ReadsEncoded3(s);
    case _ => ReadsEncoded4(s);
  }

  /** Different well-formed sequences are different characters: no overlong forms. */
  lemma CodePointsDiffer(s: seq<byte>, t: seq<byte>)
    requires WellFormed(s) && WellFormed(t) && CodePoint(s) == CodePoint(t)
    ensures s == t
  {
    ReadsEncoded(s);
    ReadsEncoded(t);
  }

  // ----- the whole buffer -----

  /** `char_at`: the character at `at` and its length; a byte that starts none is one
      replacement. */
  function CharAt(s: seq<byte>, at: nat): (r: (nat, nat))
    requires at < |s|
    ensures 1 <= r.1 <= 4 && at + r.1 <= |s|
    ensures r.1 > 1 ==> WellFormed(s[at..at + r.1]) && r.0 == CodePoint(s[at..at + r.1])
  {
    var n := Need(s[at]);
    if n == 0 || at + n > |s| || !WellFormed(s[at..at + n]) then (REPLACEMENT, 1) else (CodePoint(s[at..at + n]), n)
  }

  /** Repeating `char_at` from `at` to the end. */
  function Chars(s: seq<byte>, at: nat): seq<nat>
    requires at <= |s|
    decreases |s| - at
  {
    if at == |s| then [] else [CharAt(s, at).0] + Chars(s, at + CharAt(s, at).1)
  }

  /** `char_at` answers with a character and its length exactly where that character's encoding
      stands. */
  lemma CharAtExactly(s: seq<byte>, at: nat, c: nat)
    requires at < |s| && Scalar(c)
    ensures var e := Encode(c);
      CharAt(s, at) == (c, |e|) <==> at + |e| <= |s| && s[at..at + |e|] == e
  {
    hide CodePoint, Encode;
    EncodedReads(c);
    var e := Encode(c);
    var n := CharAt(s, at).1;
    if WellFormed(s[at..at + n]) { ReadsEncoded(s[at..at + n]); }
    if at + |e| <= |s| && s[at..at + |e|] == e { assert s[at] == e[0]; }
  }

  // ----- the stream -----

  /** What the streaming decoder holds: a lead byte and some of its continuations. */
  ghost predicate Holdable(p: seq<byte>) {
    p == [] || (|p| < Need(p[0]) && forall i :: 1 <= i < |p| ==> Continuation(p[i]))
  }

  function Replacements(n: nat): (r: seq<nat>)
    ensures |r| == n
  {
    if n == 0 then [] else [REPLACEMENT] + Replacements(n - 1)
  }

  /** `start`: what is emitted for a byte at the head of a character, and what is held. */
  function Start(b: byte): (seq<nat>, seq<byte>) {
    var n := Need(b);
    if n == 1 then ([b as nat], []) else if n == 0 then ([REPLACEMENT], []) else ([], [b])
  }

  /** `feed`: what is emitted for one byte, and what is held afterwards. */
  function Feed(p: seq<byte>, b: byte): (seq<nat>, seq<byte>) {
    if p == [] then Start(b)
    else if !Continuation(b) then (Replacements(|p|) + Start(b).0, Start(b).1)
    else
      var q := p + [b];
      if |q| < Need(q[0]) then ([], q)
      else if WellFormed(q) then ([CodePoint(q)], [])
      else (Replacements(|q|), [])
  }

  /** Everything the decoder emits for `s`, and what it still holds. */
  function Stream(p: seq<byte>, s: seq<byte>): (seq<nat>, seq<byte>)
    decreases |s|
  {
    if s == [] then ([], p)
    else
      var (out, q) := Feed(p, s[0]);
      var (rest, held) := Stream(q, s[1..]);
      (out + rest, held)
  }

  // ----- agreement -----

  /** Only the bytes from `at` on matter to `char_at`. */
  lemma CharAtShift(s: seq<byte>, t: seq<byte>, at: nat)
    requires at < |t|
    ensures CharAt(s + t, |s| + at) == CharAt(t, at)
  {
    var u, n := s + t, Need(t[at]);
    assert u[|s| + at] == t[at];
    if at + n <= |t| { assert u[|s| + at..|s| + at + n] == t[at..at + n]; }
  }

  lemma {:induction false} CharsShift(s: seq<byte>, t: seq<byte>, at: nat)
    requires at <= |t|
    ensures Chars(s + t, |s| + at) == Chars(t, at)
    decreases |t| - at
  {
    hide CharAt;
    if at < |t| {
      CharAtShift(s, t, at);
      CharsShift(s, t, at + CharAt(t, at).1);
    }
  }

  lemma CharsOf(b: byte, t: seq<byte>)
    requires CharAt([b] + t, 0).1 == 1
    ensures Chars([b] + t, 0) == [CharAt([b] + t, 0).0] + Chars(t, 0)
  {
    CharsShift([b], t, 0);
  }

  /** Continuation bytes that no character covers are one replacement each. */
  lemma {:induction false} LooseContinuations(p: seq<byte>, t: seq<byte>)
    requires forall i :: 0 <= i < |p| ==> Continuation(p[i])
    ensures Chars(p + t, 0) == Replacements(|p|) + Chars(t, 0)
  {
    hide Chars, WellFormed, CodePoint;
    if p == [] {
      assert p + t == t;
    } else {
      LooseContinuations(p[1..], t);
      assert p + t == [p[0]] + (p[1..] + t);
      CharsOf(p[0], p[1..] + t);
      RepeatTail(|p|, Chars(t, 0));
    }
  }

  /** A lead byte whose character does not come about: it and its continuations are one
      replacement each. */
  lemma BrokenCharacter(p: seq<byte>, t: seq<byte>)
    requires p != [] && Need(p[0]) > 1 && |p| <= Need(p[0]) && forall i :: 1 <= i < |p| ==> Continuation(p[i])
    requires Need(p[0]) <= |p + t| ==> !WellFormed((p + t)[..Need(p[0])])
    ensures Chars(p + t, 0) == Replacements(|p|) + Chars(t, 0)
  {
    hide Chars, WellFormed, CodePoint, CharAt, Need, Replacements, Continuation;
    var u, q := p + t, p[1..];
    assert u[0] == p[0];
    BrokenHead(u);
    assert u == [p[0]] + (q + t);
    CharsOf(p[0], q + t);
    assert forall i :: 0 <= i < |q| ==> Continuation(q[i]);
    LooseContinuations(q, t);
    RepeatTail(|p|, Chars(t, 0));
  }

  lemma BrokenHead(u: seq<byte>)
    requires |u| > 0 && Need(u[0]) > 1 && (Need(u[0]) <= |u| ==> !WellFormed(u[..Need(u[0])]))
    ensures CharAt(u, 0) == (REPLACEMENT, 1)
  {
    hide WellFormed, Need;
    if Need(u[0]) <= |u| { assert u[0..Need(u[0])] == u[..Need(u[0])]; }
  }

  lemma RepeatTail(n: nat, rest: seq<nat>)
    requires n > 0
    ensures [REPLACEMENT] + (Replacements(n - 1) + rest) == Replacements(n) + rest
  {
  }

  /** A complete character at the front. */
  lemma WholeCharacter(q: seq<byte>, t: seq<byte>)
    requires WellFormed(q)
    ensures Chars(q + t, 0) == [CodePoint(q)] + Chars(t, 0)
  {
    var u := q + t;
    assert u[0] == q[0] && u[0..|q|] == q;
    CharsShift(q, t, 0);
  }

  lemma StartAgrees(b: byte, t: seq<byte>)
    requires Start(b).1 == []
    ensures Chars([b] + t, 0) == Start(b).0 + Chars(t, 0)
  {
    var u := [b] + t;
    assert u[0] == b;
    if Need(b) == 1 { assert u[0..1] == [b]; WholeCharacter([b], t); } else { CharsOf(b, t); }
  }

  /** One byte at a time: what feeding emits, with what is then held put back in front, reads
      the same as before. */
  lemma FeedAgrees(p: seq<byte>, b: byte, t: seq<byte>)
    requires Holdable(p)
    ensures Holdable(Feed(p, b).1)
    ensures Chars(p + ([b] + t), 0) == Feed(p, b).0 + Chars(Feed(p, b).1 + t, 0)
  {
    hide Chars, WellFormed, CodePoint, CharAt;
    if p == [] {
      assert p + ([b] + t) == [b] + t;
      StartReads(b, t);
    } else if !Continuation(b) {
      NotContinued(p, b, t);
      StartReads(b, t);
      Regroup(Replacements(|p|), Start(b).0, Chars(Start(b).1 + t, 0));
    } else {
      Continued(p, b, t);
    }
  }

  lemma Regroup(a: seq<nat>, b: seq<nat>, c: seq<nat>)
    ensures a + (b + c) == (a + b) + c
  {
  }

  lemma StartReads(b: byte, t: seq<byte>)
    ensures Holdable(Start(b).1) && Chars([b] + t, 0) == Start(b).0 + Chars(Start(b).1 + t, 0)
  {
    hide Chars;
    var held := Start(b).1;
    if held == [] {
      StartAgrees(b, t);
      assert held + t == t;
    }
  }

  lemma NotContinued(p: seq<byte>, b: byte, t: seq<byte>)
    requires Holdable(p) && p != [] && !Continuation(b)
    ensures Chars(p + ([b] + t), 0) == Replacements(|p|) + Chars([b] + t, 0)
  {
    var u := p + ([b] + t);
    var n := Need(p[0]);
    if n <= |u| {
      assert u[..n][|p|] == b;
      assert !WellFormed(u[..n]);
    }
    hide Chars, WellFormed, CodePoint, CharAt;
    BrokenCharacter(p, [b] + t);
  }

  lemma Continued(p: seq<byte>, b: byte, t: seq<byte>)
    requires Holdable(p) && p != [] && Continuation(b)
    ensures Holdable(Feed(p, b).1) && Chars(p + ([b] + t), 0) == Feed(p, b).0 + Chars(Feed(p, b).1 + t, 0)
  {
    hide Chars, WellFormed, CodePoint, CharAt, Need;
    var q := p + [b];
    assert p + ([b] + t) == q + t && q[0] == p[0];
    assert forall i :: 1 <= i < |q| ==> Continuation(q[i]);
    if |q| < Need(q[0]) {
      assert [] + Chars(q + t, 0) == Chars(q + t, 0);
    } else {
      var held: seq<byte> := Feed(p, b).1;
      assert held + t == t;
      if WellFormed(q) {
        WholeCharacter(q, t);
      } else {
        assert (q + t)[..|q|] == q;
        BrokenCharacter(q, t);
      }
    }
  }

  lemma {:induction false} StreamFrom(p: seq<byte>, s: seq<byte>)
    requires Holdable(p)
    ensures Holdable(Stream(p, s).1)
    ensures Chars(p + s, 0) == Stream(p, s).0 + Replacements(|Stream(p, s).1|)
    decreases |s|
  {
    if s == [] {
      assert p + s == p;
      if p != [] {
        BrokenCharacter(p, []);
        assert p + [] == p;
      }
    } else {
      var b, t := s[0], s[1..];
      var (out, q) := Feed(p, b);
      assert s == [b] + t;
      FeedAgrees(p, b, t);
      StreamFrom(q, t);
      var (rest, held) := Stream(q, t);
      assert out + (rest + Replacements(|held|)) == (out + rest) + Replacements(|held|);
    }
  }

  /** The two decoders agree on every byte string: the stream's output, then one replacement
      for each byte it still holds, is `char_at` repeated over the whole buffer. */
  lemma DecodersAgree(s: seq<byte>)
    ensures Chars(s, 0) == Stream([], s).0 + Replacements(|Stream([], s).1|)
  {
    StreamFrom([], s);
    assert [] + s == s;
  }

  ghost predicate Text(cs: seq<nat>) {
    forall i :: 0 <= i < |cs| ==> Scalar(cs[i])
  }

  function Encoded(cs: seq<nat>): seq<byte>
    requires Text(cs)
  {
    if cs == [] then [] else Encode(cs[0]) + Encoded(cs[1..])
  }

  /** Any text reads back from its encoding, character by character, and so does the stream. */
  lemma {:induction false} TextReads(cs: seq<nat>)
    requires Text(cs)
    ensures Chars(Encoded(cs), 0) == cs
    ensures Stream([], Encoded(cs)).0 + Replacements(|Stream([], Encoded(cs)).1|) == cs
  {
    hide Chars, CodePoint, WellFormed, Encode, Stream;
    if cs == [] {
      assert Chars([], 0) == [] by { NoChars(); }
    } else {
      TextReads(cs[1..]);
      EncodedReads(cs[0]);
      WholeCharacter(Encode(cs[0]), Encoded(cs[1..]));
    }
    DecodersAgree(Encoded(cs));
  }

  lemma NoChars()
    ensures Chars([], 0) == []
  {
  }

  /** The streaming decoder as the object it is. */
  class Utf8Decoder {
    const buf: array<byte>
    var len: nat
    var need: nat

    ghost predicate Valid()
      reads this, buf
    {
      && buf.Length == 4 && len <= 4 && Holdable(buf[..len])
      && need == (if len == 0 then 0 else Need(buf[0]))
    }

    ghost function Held(): seq<byte>
      requires len <= buf.Length
      reads this, buf
    {
      buf[..len]
    }

    constructor ()
      ensures Valid() && fresh(buf) && Held() == []
    {
      buf := new byte[4](_ => 0);
      len, need := 0, 0;
    }

    method StartWith(b: byte) returns (out: seq<nat>)
      requires Valid() && len == 0
      modifies this, buf
      ensures Valid() && (out, Held()) == Start(b)
    {
      var n := Need(b);
      if n == 1 { return [b as nat]; }
      if n == 0 { return [REPLACEMENT]; }
      buf[0] := b;
      len, need := 1, n;
      out := [];
      assert Held() == [b];
    }

    method FlushBroken() returns (out: seq<nat>)
      requires buf.Length == 4 && len <= 4
      modifies this
      ensures Valid() && len == 0 && out == Replacements(old(len))
    {
      out := [];
      var k := 0;
      while k < len
        invariant k <= len == old(len) && out == Replacements(k)
      {
        ReplacementsGrow(k);
        out := out + [REPLACEMENT];
        k := k + 1;
      }
      len, need := 0, 0;
    }

    /** `feed`. */
    method FeedByte(b: byte) returns (out: seq<nat>)
      requires Valid()
      modifies this, buf
      ensures Valid() && (out, Held()) == Feed(old(Held()), b)
    {
      if len == 0 {
        out := StartWith(b);
        return;
      }
      ghost var p := Held();
      if !Continuation(b) {
        var broken := FlushBroken();
        var rest := StartWith(b);
        return broken + rest;
      }
      buf[len] := b;
      len := len + 1;
      assert Held() == p + [b];
      if len < need { return []; }
      if WellFormed(buf[..len]) {
        out := [CodePoint(buf[..len])];
        len, need := 0, 0;
      } else {
        out := FlushBroken();
      }
    }
  }

  lemma {:induction false} ReplacementsGrow(n: nat)
    ensures Replacements(n) + [REPLACEMENT] == Replacements(n + 1)
  {
    if n > 0 {
      ReplacementsGrow(n - 1);
      assert [REPLACEMENT] + Replacements(n - 1) + [REPLACEMENT]
          == [REPLACEMENT] + (Replacements(n - 1) + [REPLACEMENT]);
    }
  }

  // ----- moving by characters -----

  function NextBoundary(s: seq<byte>, at: nat): nat
    requires at <= |s|
  {
    if at == |s| then at else at + CharAt(s, at).1
  }

  /** Where the backward search of `prev_boundary` stops. */
  function BackTo(s: seq<byte>, back: nat, floor: nat): (r: nat)
    requires floor <= back < |s|
    ensures floor <= r <= back && (forall i :: r < i <= back ==> Continuation(s[i]))
    ensures r > floor ==> !Continuation(s[r])
    decreases back
  {
    if back > floor && Continuation(s[back]) then BackTo(s, back - 1, floor) else back
  }

  /** `prev_boundary`. */
  function PrevBoundary(s: seq<byte>, at: nat): nat
    requires at <= |s|
  {
    if at == 0 then 0
    else
      var back := BackTo(s, at - 1, if at >= 4 then at - 4 else 0);
      if back + CharAt(s, back).1 == at then back else at - 1
  }

  method FindPrevBoundary(s: seq<byte>, at: nat) returns (r: nat)
    requires at <= |s|
    ensures r == PrevBoundary(s, at)
  {
    if at == 0 { return 0; }
    var back := at - 1;
    var floor := if at >= 4 then at - 4 else 0;
    while back > floor && Continuation(s[back])
      invariant floor <= back < at && BackTo(s, at - 1, floor) == BackTo(s, back, floor)
    {
      back := back - 1;
    }
    r := if back + CharAt(s, back).1 == at then back else at - 1;
  }

  /** The position `n` characters from the start. */
  function Step(s: seq<byte>, n: nat): (at: nat)
    ensures at <= |s|
  {
    if n == 0 then 0 else NextBoundary(s, Step(s, n - 1))
  }

  lemma {:induction false} StepGrows(s: seq<byte>, m: nat, n: nat)
    requires m < n
    ensures Step(s, m) <= Step(s, n) && (Step(s, m) < |s| ==> Step(s, m) + CharAt(s, Step(s, m)).1 <= Step(s, n))
    decreases n
  {
    if m < n - 1 { StepGrows(s, m, n - 1); }
  }

  /** A byte inside a character, past its lead, starts no character of its own. */
  lemma InsideIsContinuation(s: seq<byte>, r: nat, q: nat)
    requires r < q < |s| && q < r + CharAt(s, r).1
    ensures CharAt(s, q).1 == 1
  {
    hide CodePoint;
    var c := s[r..r + CharAt(s, r).1];
    assert WellFormed(c) && c[q - r] == s[q] && Continuation(s[q]);
  }

  /** No character of two or more bytes reaches across a position the walk stops at. */
  lemma {:induction false} NothingAcross(s: seq<byte>, n: nat, q: nat)
    requires q < Step(s, n)
    ensures q + CharAt(s, q).1 <= Step(s, n)
  {
    hide CodePoint, Need, CharAt, WellFormed;
    var r := Step(s, n - 1);
    if q < r {
      NothingAcross(s, n - 1, q);
    } else if r < q {
      InsideIsContinuation(s, r, q);
    }
  }

  /** Going forward from a reachable position and back again comes home, on broken input too. */
  lemma PrevUndoesNext(s: seq<byte>, n: nat)
    requires Step(s, n) < |s|
    ensures PrevBoundary(s, NextBoundary(s, Step(s, n))) == Step(s, n)
  {
    hide WellFormed, CodePoint, CharAt, Need, BackTo;
    var at := Step(s, n);
    var next := at + CharAt(s, at).1;
    if CharAt(s, at).1 == 1 {
      var back := BackTo(s, next - 1, if next >= 4 then next - 4 else 0);
      if back < at { NothingAcross(s, n, back); }
    } else {
      BackOverCharacter(s, at);
    }
  }

  lemma {:induction false} BackStops(s: seq<byte>, back: nat, floor: nat, at: nat)
    requires floor <= at <= back < |s| && !Continuation(s[at]) && forall i :: at < i <= back ==> Continuation(s[i])
    ensures BackTo(s, back, floor) == at
    decreases back
  {
    if at < back { BackStops(s, back - 1, floor, at); }
  }

  /** The backward search from the end of a character stops at its lead byte. */
  lemma BackOverCharacter(s: seq<byte>, at: nat)
    requires at < |s| && CharAt(s, at).1 > 1
    ensures var next := at + CharAt(s, at).1; BackTo(s, next - 1, if next >= 4 then next - 4 else 0) == at
  {
    hide CodePoint, BackTo;
    var next := at + CharAt(s, at).1;
    var c := s[at..next];
    assert WellFormed(c) && c[0] == s[at];
    forall i | at < i < next ensures Continuation(s[i]) { assert c[i - at] == s[i]; }
    BackStops(s, next - 1, if next >= 4 then next - 4 else 0, at);
  }

  /** Going back from a reachable position and forward again comes home too. */
  lemma NextUndoesPrev(s: seq<byte>, n: nat)
    requires 0 < Step(s, n)
    ensures exists m: nat {:trigger Step(s, m)} ::
      Step(s, m) == PrevBoundary(s, Step(s, n)) && NextBoundary(s, Step(s, m)) == Step(s, n)
  {
    var m := FirstReaching(s, n);
    PrevUndoesNext(s, m);
  }

  /** The step that first reaches the position of step `n`. */
  lemma {:induction false} FirstReaching(s: seq<byte>, n: nat) returns (m: nat)
    requires 0 < Step(s, n)
    ensures Step(s, m) < Step(s, n) && Step(s, m + 1) == Step(s, n)
  {
    hide NextBoundary, CharAt;
    StepGrows(s, n - 1, n);
    if Step(s, n - 1) < Step(s, n) { m := n - 1; } else { m := FirstReaching(s, n - 1); }
  }
}
