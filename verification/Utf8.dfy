// The UTF-8 automaton of src/utf.c and the validator of src/util.c, proved
// against the grammar of section 4 of RFC 3629 and the bit layout of its
// section 3.

module Utf8 {
  import opened Bytes

  const ACCEPT: nat := 0
  const REJECT: nat := 1

  // ---- The grammar ----

  predicate IsTail(b: byte) { 0x80 <= b <= 0xBF }

  /** One UTF8-char of the grammar. */
  predicate IsChar(s: seq<byte>)
  {
    if |s| == 1 then s[0] <= 0x7F
    else if |s| == 2 then 0xC2 <= s[0] <= 0xDF && IsTail(s[1])
    else if |s| == 3 then
      && IsTail(s[2])
      && (|| (s[0] == 0xE0 && 0xA0 <= s[1] <= 0xBF)
          || (0xE1 <= s[0] <= 0xEC && IsTail(s[1]))
          || (s[0] == 0xED && 0x80 <= s[1] <= 0x9F)
          || (0xEE <= s[0] <= 0xEF && IsTail(s[1])))
    else if |s| == 4 then
      && IsTail(s[2]) && IsTail(s[3])
      && (|| (s[0] == 0xF0 && 0x90 <= s[1] <= 0xBF)
          || (0xF1 <= s[0] <= 0xF3 && IsTail(s[1]))
          || (s[0] == 0xF4 && 0x80 <= s[1] <= 0x8F))
    else false
  }

  predicate AllChars(chars: seq<seq<byte>>)
  {
    forall i | 0 <= i < |chars| :: IsChar(chars[i])
  }

  /** UTF8-octets: a concatenation of UTF8-chars. */
  ghost predicate WellFormed(s: seq<byte>)
  {
    exists chars :: AllChars(chars) && Concat(chars) == s
  }

  // ---- The automaton ----

  /** utf8d[0..256]: the class of a byte. */
  function Class(b: byte): (t: nat)
    ensures t < 16
  {
    if b <= 0x7F then 0
    else if b <= 0x8F then 1
    else if b <= 0x9F then 9
    else if b <= 0xBF then 7
    else if b <= 0xC1 then 8
    else if b <= 0xDF then 2
    else if b == 0xE0 then 10
    else if b == 0xED then 4
    else if b <= 0xEF then 3
    else if b == 0xF0 then 11
    else if b <= 0xF3 then 6
    else if b == 0xF4 then 5
    else 8
  }

  /** utf8d[256 + state*16 + type]. */
  function Transition(state: nat, t: nat): (next: nat)
    requires state <= 8 && t < 16
    ensures next <= 8
  {
    match state
    case 0 =>
      (match t
       case 0 => 0 case 2 => 2 case 3 => 3 case 4 => 5 case 5 => 8
       case 6 => 7 case 10 => 4 case 11 => 6 case _ => REJECT)
    case 2 => if t in {1, 7, 9} then 0 else REJECT
    case 3 => if t in {1, 7, 9} then 2 else REJECT
    case 4 => if t == 7 then 2 else REJECT
    case 5 => if t in {1, 9} then 2 else REJECT
    case 6 => if t in {7, 9} then 3 else REJECT
    case 7 => if t in {1, 7, 9} then 3 else REJECT
    case 8 => if t == 1 then 3 else REJECT
    case _ => REJECT
  }

  function NextState(state: nat, b: byte): (next: nat)
    requires state <= 8
    ensures next <= 8
  {
    Transition(state, Class(b))
  }

  function NextCode(state: nat, code: bv32, b: byte): (next: bv32)
    requires state <= 8
  {
    if state != ACCEPT then (b as bv32 & 0x3F) | (code << 6)
    else ((0xFF as bv32) >> Class(b)) & b as bv32
  }

  /** The state reached from `state` over `s`. */
  function Run(state: nat, s: seq<byte>): (next: nat)
    requires state <= 8
    ensures next <= 8
    decreases |s|
  {
    if s == [] then state else Run(NextState(state, s[0]), s[1..])
  }

  /** The code points on reaching ACCEPT, in order. */
  function Scan(state: nat, code: bv32, s: seq<byte>): seq<bv32>
    requires state <= 8
    decreases |s|
  {
    if s == [] then []
    else
      var next, c := NextState(state, s[0]), NextCode(state, code, s[0]);
      (if next == ACCEPT then [c] else []) + Scan(next, c, s[1..])
  }

  // One step of the C automaton, whose state and code point are updated through pointers.
  method Decode(state: nat, codep: bv32, b: byte) returns (state': nat, codep': bv32)
    requires state <= 8
    ensures state' == NextState(state, b) && codep' == NextCode(state, codep, b)
  {
    var t := Class(b);
    codep' := if state != ACCEPT then (b as bv32 & 0x3F) | (codep << 6) else ((0xFF as bv32) >> t) & b as bv32;
    state' := Transition(state, t);
  }

  /** validate_utf8_sequence over a NUL-terminated buffer: the verdict of the grammar on the C string. */
  method ValidateUtf8Sequence(s: seq<byte>) returns (ok: bool)
    requires 0 in s
    ensures ok <==> WellFormed(UpToNul(s))
  {
    var codepoint: bv32 := *;
    var state := ACCEPT;
    var i := 0;
    while s[i] != 0
      invariant i < |s| && state <= 8 && 0 in s[i..]
      invariant Run(state, UpToNul(s[i..])) == Run(ACCEPT, UpToNul(s))
      decreases |s| - i
    {
      assert s[i..][0] == s[i] && s[i..][1..] == s[i + 1..];
      state, codepoint := Decode(state, codepoint, s[i]);
      i := i + 1;
    }
    AutomatonIsGrammar(UpToNul(s));
    return state == ACCEPT;
  }

  // ---- The automaton accepts the grammar ----

  lemma {:induction false} RunAppend(state: nat, a: seq<byte>, b: seq<byte>)
    requires state <= 8
    ensures Run(state, a + b) == Run(Run(state, a), b)
    decreases |a|
  {
    if a == [] {
      assert a + b == b;
    } else {
      assert (a + b)[1..] == a[1..] + b;
      RunAppend(NextState(state, a[0]), a[1..], b);
    }
  }

  lemma {:induction false} RejectIsFinal(s: seq<byte>)
    ensures Run(REJECT, s) == REJECT
  {
    if s != [] {
      RejectIsFinal(s[1..]);
    }
  }

  lemma RunChar(s: seq<byte>)
    requires IsChar(s)
    ensures Run(ACCEPT, s) == ACCEPT
  {
    assert s[1..] == if |s| == 1 then [] else [s[1]] + s[2..];
    if |s| > 1 {
      Run2(ACCEPT, s);
      if |s| > 3 {
        Run2(Run(ACCEPT, s[..2]), s[2..]);
      }
    }
  }

  /** The first two steps of a run. */
  lemma Run2(state: nat, s: seq<byte>)
    requires state <= 8 && |s| >= 2
    ensures Run(state, s[..2]) == NextState(NextState(state, s[0]), s[1])
    ensures Run(state, s) == Run(Run(state, s[..2]), s[2..])
  {
    assert s == s[..2] + s[2..];
    RunAppend(state, s[..2], s[2..]);
    hide NextState;
    var next := NextState(state, s[0]);
    assert s[..2][1..] == [s[1]] && [s[1]][1..] == [];
    assert Run(state, s[..2]) == Run(next, [s[1]]) == Run(NextState(next, s[1]), []);
  }

  lemma {:induction false} AcceptsChars(chars: seq<seq<byte>>)
    requires AllChars(chars)
    ensures Run(ACCEPT, Concat(chars)) == ACCEPT
  {
    if chars != [] {
      var n := |chars| - 1;
      AcceptsChars(chars[..n]);
      RunAppend(ACCEPT, Concat(chars[..n]), chars[n]);
      RunChar(chars[n]);
    }
  }

  /** An accepted non-empty string begins with a UTF8-char, after which the run is back at ACCEPT. */
  lemma FirstChar(s: seq<byte>) returns (n: nat)
    requires s != [] && Run(ACCEPT, s) == ACCEPT
    ensures 1 <= n <= |s| && IsChar(s[..n]) && Run(ACCEPT, s[n..]) == ACCEPT
  {
    var first := NextState(ACCEPT, s[0]);
    assert first != REJECT by { if first == REJECT { RejectIsFinal(s[1..]); } }
    if first == ACCEPT { return 1; }
    assert |s| >= 2;
    Run2(ACCEPT, s);
    var second := Run(ACCEPT, s[..2]);
    assert second != REJECT by { if second == REJECT { RejectIsFinal(s[2..]); } }
    if second == ACCEPT { return 2; }
    assert |s| >= 3;
    var third := NextState(second, s[2]);
    assert s[2..][1..] == s[3..];
    assert third != REJECT by { if third == REJECT { RejectIsFinal(s[3..]); } }
    if third == ACCEPT { return 3; }
    assert |s| >= 4;
    assert s[3..][1..] == s[4..];
    var fourth := NextState(third, s[3]);
    assert fourth != REJECT by { if fourth == REJECT { RejectIsFinal(s[4..]); } }
    n := 4;
  }

  lemma {:induction false} SplitChars(s: seq<byte>) returns (chars: seq<seq<byte>>)
    requires Run(ACCEPT, s) == ACCEPT
    ensures AllChars(chars) && Concat(chars) == s
    decreases |s|
  {
    if s == [] { return []; }
    var n := FirstChar(s);
    var rest := SplitChars(s[n..]);
    chars := [s[..n]] + rest;
    ConcatPrepend(s[..n], rest);
  }

  /** The automaton ends in ACCEPT exactly on the strings of the grammar. */
  lemma AutomatonIsGrammar(s: seq<byte>)
    ensures Run(ACCEPT, s) == ACCEPT <==> WellFormed(s)
  {
    if Run(ACCEPT, s) == ACCEPT {
      var chars := SplitChars(s);
    }
    if WellFormed(s) {
      var chars :| AllChars(chars) && Concat(chars) == s;
      AcceptsChars(chars);
    }
  }

  // ---- Code points (section 3 of RFC 3629) ----

  /** A Unicode scalar value. */
  predicate Scalar(v: bv32)
  {
    v <= 0x10FFFF && !(0xD800 <= v <= 0xDFFF)
  }

  function Low6(v: bv32): (b: byte)
  {
    (0x80 | (v & 0x3F)) as byte
  }

  function Lead2(v: bv32): byte requires v <= 0x7FF { (0xC0 | (v >> 6)) as byte }

  function Lead3(v: bv32): byte requires v <= 0xFFFF { (0xE0 | (v >> 12)) as byte }

  function Lead4(v: bv32): byte requires v <= 0x10FFFF { (0xF0 | (v >> 18)) as byte }

  function EncodeScalar(v: bv32): (s: seq<byte>)
    requires Scalar(v)
  {
    if v <= 0x7F then [v as byte]
    else if v <= 0x7FF then [Lead2(v), Low6(v)]
    else if v <= 0xFFFF then [Lead3(v), Low6(v >> 6), Low6(v)]
    else [Lead4(v), Low6(v >> 12), Low6(v >> 6), Low6(v)]
  }

  /** The examples of section 7. */
  lemma Examples()
    ensures EncodeScalar(0x41) == [0x41] && EncodeScalar(0x391) == [0xCE, 0x91]
    ensures EncodeScalar(0x2262) == [0xE2, 0x89, 0xA2] && EncodeScalar(0xD55C) == [0xED, 0x95, 0x9C]
    ensures EncodeScalar(0x8A9E) == [0xE8, 0xAA, 0x9E] && EncodeScalar(0xFEFF) == [0xEF, 0xBB, 0xBF]
    ensures EncodeScalar(0x233B4) == [0xF0, 0xA3, 0x8E, 0xB4]
  {
  }

  predicate AllScalars(vs: seq<bv32>)
  {
    forall i | 0 <= i < |vs| :: Scalar(vs[i])
  }

  function EncodeScalars(vs: seq<bv32>): seq<byte>
    requires AllScalars(vs)
  {
    if vs == [] then [] else EncodeScalar(vs[0]) + EncodeScalars(vs[1..])
  }

  /** What the first byte of a sequence leaves in the code point. */
  function LeadBits(b: byte): (v: bv32)
  {
    if b <= 0x7F then b as bv32
    else if 0xC2 <= b <= 0xDF then b as bv32 & 0x1F
    else if b <= 0xEF then b as bv32 & 0xF
    else b as bv32 & 0x7
  }

  lemma LeadCode(code: bv32, b: byte)
    requires b <= 0x7F || 0xC2 <= b <= 0xF4
    ensures NextCode(ACCEPT, code, b) == LeadBits(b)
  {
    var t := Class(b);
    if t == 0 { assert (0xFF as bv32) >> 0 == 0xFF; }
    else if t == 2 { assert (0xFF as bv32) >> 2 == 0x3F; }
    else if t == 3 { assert (0xFF as bv32) >> 3 == 0x1F; }
    else if t == 4 { assert (0xFF as bv32) >> 4 == 0xF; }
    else if t == 5 { assert (0xFF as bv32) >> 5 == 0x7; }
    else if t == 6 { assert (0xFF as bv32) >> 6 == 0x3; }
    else if t == 10 { assert (0xFF as bv32) >> 10 == 0; }
    else { assert t == 11; assert (0xFF as bv32) >> 11 == 0; }
  }

  /** A tail byte shifted in. */
  function TailBits(code: bv32, b: byte): bv32
  {
    (b as bv32 & 0x3F) | (code << 6)
  }

  /** The scalar value a UTF8-char stands for. */
  function CodeOf(s: seq<byte>): (v: bv32)
    requires IsChar(s)
  {
    if |s| == 1 then LeadBits(s[0])
    else if |s| == 2 then TailBits(LeadBits(s[0]), s[1])
    else if |s| == 3 then TailBits(TailBits(LeadBits(s[0]), s[1]), s[2])
    else TailBits(TailBits(TailBits(LeadBits(s[0]), s[1]), s[2]), s[3])
  }

  lemma Encode1(v: bv32)
    requires v <= 0x7F
    ensures IsChar(EncodeScalar(v)) && CodeOf(EncodeScalar(v)) == v
  {
    var b := v as byte;
    assert b <= 0x7F && b as bv32 == v;
  }

  lemma Tail6(v: bv32)
    ensures IsTail(Low6(v)) && Low6(v) as bv32 & 0x3F == v & 0x3F
  {
  }

  lemma Bits2(v: bv32)
    requires 0x7F < v <= 0x7FF
    ensures 0xC2 <= Lead2(v) <= 0xDF && TailBits(Lead2(v) as bv32 & 0x1F, Low6(v)) == v
  {
  }

  lemma Bits3(v: bv32)
    requires 0x7FF < v <= 0xFFFF
    ensures 0xE0 <= Lead3(v) <= 0xEF
    ensures TailBits(TailBits(Lead3(v) as bv32 & 0xF, Low6(v >> 6)), Low6(v)) == v
  {
  }

  lemma Range3(v: bv32)
    requires 0x7FF < v <= 0xFFFF && Scalar(v)
    ensures (Lead3(v) == 0xE0 ==> Low6(v >> 6) >= 0xA0) && (Lead3(v) == 0xED ==> Low6(v >> 6) <= 0x9F)
  {
  }

  lemma Bits4(v: bv32)
    requires 0xFFFF < v <= 0x10FFFF
    ensures TailBits(TailBits(TailBits(Lead4(v) as bv32 & 0x7, Low6(v >> 12)), Low6(v >> 6)), Low6(v)) == v
  {
  }

  lemma Range4(v: bv32)
    requires 0xFFFF < v <= 0x10FFFF
    ensures 0xF0 <= Lead4(v) <= 0xF4
    ensures (Lead4(v) == 0xF0 ==> Low6(v >> 12) >= 0x90) && (Lead4(v) == 0xF4 ==> Low6(v >> 12) <= 0x8F)
  {
  }

  lemma Encode2(v: bv32)
    requires 0x7F < v <= 0x7FF
    ensures IsChar(EncodeScalar(v)) && CodeOf(EncodeScalar(v)) == v
  {
    hide Lead2, Low6, TailBits;
    Bits2(v);
    Tail6(v);
  }

  lemma Encode3(v: bv32)
    requires 0x7FF < v <= 0xFFFF && Scalar(v)
    ensures IsChar(EncodeScalar(v)) && CodeOf(EncodeScalar(v)) == v
  {
    hide Lead3, Low6, TailBits;
    Bits3(v);
    Range3(v);
    Tail6(v);
    Tail6(v >> 6);
  }

  lemma Encode4(v: bv32)
    requires 0xFFFF < v <= 0x10FFFF
    ensures IsChar(EncodeScalar(v)) && CodeOf(EncodeScalar(v)) == v
  {
    hide Lead4, Low6, TailBits;
    Bits4(v);
    Range4(v);
    Tail6(v);
    Tail6(v >> 6);
    Tail6(v >> 12);
  }

  /** Encoding a scalar value gives a UTF8-char that stands for it. */
  lemma EncodeIsChar(v: bv32)
    requires Scalar(v)
    ensures IsChar(EncodeScalar(v)) && CodeOf(EncodeScalar(v)) == v
  {
    hide EncodeScalar, IsChar, CodeOf;
    if v <= 0x7F { Encode1(v); }
    else if v <= 0x7FF { Encode2(v); }
    else if v <= 0xFFFF { Encode3(v); }
    else { Encode4(v); }
  }

  lemma Char1(b: byte)
    requires IsChar([b])
    ensures Scalar(CodeOf([b])) && EncodeScalar(CodeOf([b])) == [b]
  {
    var v := b as bv32;
    assert v <= 0x7F && v as byte == b;
  }

  lemma Back2(b0: byte, b1: byte)
    requires 0xC2 <= b0 <= 0xDF && IsTail(b1)
    ensures var v := TailBits(b0 as bv32 & 0x1F, b1); 0x7F < v <= 0x7FF && Lead2(v) == b0 && Low6(v) == b1
  {
  }

  /** The three bytes of a UTF8-3. */
  predicate Triple(b0: byte, b1: byte, b2: byte)
  {
    && 0xE0 <= b0 <= 0xEF && IsTail(b1) && IsTail(b2)
    && (b0 == 0xE0 ==> b1 >= 0xA0) && (b0 == 0xED ==> b1 <= 0x9F)
  }

  /** The four bytes of a UTF8-4. */
  predicate Quad(b0: byte, b1: byte, b2: byte, b3: byte)
  {
    && 0xF0 <= b0 <= 0xF4 && IsTail(b1) && IsTail(b2) && IsTail(b3)
    && (b0 == 0xF0 ==> b1 >= 0x90) && (b0 == 0xF4 ==> b1 <= 0x8F)
  }

  function TripleCode(b0: byte, b1: byte, b2: byte): bv32
  {
    TailBits(TailBits(b0 as bv32 & 0xF, b1), b2)
  }

  function QuadCode(b0: byte, b1: byte, b2: byte, b3: byte): bv32
  {
    TailBits(TailBits(TailBits(b0 as bv32 & 0x7, b1), b2), b3)
  }

  lemma TripleRange(b0: byte, b1: byte, b2: byte)
    requires Triple(b0, b1, b2)
    ensures 0x7FF < TripleCode(b0, b1, b2) <= 0xFFFF && Scalar(TripleCode(b0, b1, b2))
  {
  }

  lemma TripleSpelled(b0: byte, b1: byte, b2: byte)
    requires Triple(b0, b1, b2) && TripleCode(b0, b1, b2) <= 0xFFFF
    ensures var v := TripleCode(b0, b1, b2); Lead3(v) == b0 && Low6(v >> 6) == b1 && Low6(v) == b2
  {
  }

  predicate InRange4(v: bv32) { 0xFFFF < v <= 0x10FFFF && Scalar(v) }

  predicate Starts4(v: bv32, b0: byte, b1: byte) { v <= 0x10FFFF && Lead4(v) == b0 && Low6(v >> 12) == b1 }

  predicate Ends4(v: bv32, b2: byte, b3: byte) { Low6(v >> 6) == b2 && Low6(v) == b3 }

  lemma QuadRange(b0: byte, b1: byte, b2: byte, b3: byte)
    requires Quad(b0, b1, b2, b3)
    ensures InRange4(QuadCode(b0, b1, b2, b3))
  {
  }

  lemma QuadLead(b0: byte, b1: byte, b2: byte, b3: byte)
    requires Quad(b0, b1, b2, b3)
    ensures Starts4(QuadCode(b0, b1, b2, b3), b0, b1)
  {
  }

  lemma QuadTail(b0: byte, b1: byte, b2: byte, b3: byte)
    requires Quad(b0, b1, b2, b3)
    ensures Ends4(QuadCode(b0, b1, b2, b3), b2, b3)
  {
  }

  lemma Char2(s: seq<byte>)
    requires IsChar(s) && |s| == 2
    ensures Scalar(CodeOf(s)) && EncodeScalar(CodeOf(s)) == s
  {
    hide Lead2, Low6, TailBits;
    Back2(s[0], s[1]);
  }

  predicate Spells3(v: bv32, s: seq<byte>)
  {
    |s| == 3 && 0x7FF < v <= 0xFFFF && Scalar(v) && Lead3(v) == s[0] && Low6(v >> 6) == s[1] && Low6(v) == s[2]
  }

  predicate Spells4(v: bv32, s: seq<byte>)
  {
    |s| == 4 && InRange4(v) && Starts4(v, s[0], s[1]) && Ends4(v, s[2], s[3])
  }

  lemma Shape3(s: seq<byte>)
    requires IsChar(s) && |s| == 3
    ensures Triple(s[0], s[1], s[2]) && CodeOf(s) == TripleCode(s[0], s[1], s[2])
  {
    hide TailBits;
  }

  lemma Shape4(s: seq<byte>)
    requires IsChar(s) && |s| == 4
    ensures Quad(s[0], s[1], s[2], s[3]) && CodeOf(s) == QuadCode(s[0], s[1], s[2], s[3])
  {
    hide TailBits;
  }

  lemma Spelled3(v: bv32, s: seq<byte>)
    requires Spells3(v, s)
    ensures Scalar(v) && EncodeScalar(v) == s
  {
    hide Lead3, Low6, Scalar;
  }

  lemma Spelled4(v: bv32, s: seq<byte>)
    requires Spells4(v, s)
    ensures Scalar(v) && EncodeScalar(v) == s
  {
    hide Lead4, Low6, Scalar;
  }

  lemma Char3(s: seq<byte>)
    requires IsChar(s) && |s| == 3
    ensures Scalar(CodeOf(s)) && EncodeScalar(CodeOf(s)) == s
  {
    hide Lead3, Low6, Scalar, IsChar, CodeOf, Triple, TripleCode, EncodeScalar;
    Shape3(s);
    TripleRange(s[0], s[1], s[2]);
    TripleSpelled(s[0], s[1], s[2]);
    Spelled3(CodeOf(s), s);
  }

  lemma QuadSpells(s: seq<byte>, v: bv32)
    requires |s| == 4 && Quad(s[0], s[1], s[2], s[3]) && v == QuadCode(s[0], s[1], s[2], s[3])
    ensures Spells4(v, s)
  {
    hide InRange4, Starts4, Ends4, Quad, QuadCode;
    QuadRange(s[0], s[1], s[2], s[3]);
    QuadLead(s[0], s[1], s[2], s[3]);
    QuadTail(s[0], s[1], s[2], s[3]);
  }

  lemma Char4(s: seq<byte>)
    requires IsChar(s) && |s| == 4
    ensures Scalar(CodeOf(s)) && EncodeScalar(CodeOf(s)) == s
  {
    hide Spells4, Scalar, IsChar, CodeOf, Quad, QuadCode, EncodeScalar;
    Shape4(s);
    QuadSpells(s, CodeOf(s));
    Spelled4(CodeOf(s), s);
  }

  /** Every UTF8-char is the encoding of the scalar value it stands for. */
  lemma CharIsEncoding(s: seq<byte>)
    requires IsChar(s)
    ensures Scalar(CodeOf(s)) && EncodeScalar(CodeOf(s)) == s
  {
    hide EncodeScalar, CodeOf, Scalar;
    if |s| == 1 { assert s == [s[0]]; Char1(s[0]); }
    else if |s| == 2 { Char2(s); }
    else if |s| == 3 { Char3(s); }
    else { Char4(s); }
  }

  // ---- The automaton computes the code points ----

  /** One step of a scan. */
  lemma ScanStep(state: nat, code: bv32, b: byte, rest: seq<byte>)
    requires state <= 8
    ensures var next, c := NextState(state, b), NextCode(state, code, b);
            Scan(state, code, [b] + rest) == (if next == ACCEPT then [c] else []) + Scan(next, c, rest)
  {
    assert ([b] + rest)[1..] == rest;
  }

  /** Inside a character a byte is shifted in. */
  lemma TailCode(state: nat, code: bv32, b: byte)
    requires 2 <= state <= 8
    ensures NextCode(state, code, b) == TailBits(code, b)
  {
  }

  /** The states inside a character of each length. */
  lemma CharStates(s: seq<byte>)
    requires IsChar(s)
    ensures var a := NextState(ACCEPT, s[0]);
            if |s| == 1 then a == ACCEPT
            else && 2 <= a <= 8
                 && var b := NextState(a, s[1]);
                    if |s| == 2 then b == ACCEPT
                    else && 2 <= b <= 8
                         && var c := NextState(b, s[2]);
                            if |s| == 3 then c == ACCEPT else 2 <= c <= 8 && NextState(c, s[3]) == ACCEPT
  {
  }

  lemma CharLead(s: seq<byte>)
    requires IsChar(s)
    ensures s[0] <= 0x7F || 0xC2 <= s[0] <= 0xF4
  {
  }

  /** From ACCEPT a UTF8-char leads back to ACCEPT with the scalar value it stands for. */
  lemma ScanChar(s: seq<byte>, code: bv32, rest: seq<byte>)
    requires IsChar(s)
    ensures Scan(ACCEPT, code, s + rest) == [CodeOf(s)] + Scan(ACCEPT, CodeOf(s), rest)
  {
    CharStates(s);
    CharLead(s);
    LeadCode(code, s[0]);
    if |s| > 1 {
      CodeIsShift(s);
      LeadsOutOfChar(s);
    }
    hide NextState, NextCode, TailBits, LeadBits, IsChar, Scan;
    var a, x := NextState(ACCEPT, s[0]), LeadBits(s[0]);
    var after1 := s[1..] + rest;
    assert s + rest == [s[0]] + after1;
    ScanStep(ACCEPT, code, s[0], after1);
    if |s| == 1 {
      assert after1 == rest;
    } else {
      ScanTail(a, x, s[1..], rest);
    }
  }

  /** The rest of a character. */
  lemma {:induction false} ScanTail(state: nat, code: bv32, s: seq<byte>, rest: seq<byte>)
    requires 2 <= state <= 8 && LeadsOut(state, s)
    ensures Scan(state, code, s + rest) == [Shift(code, s)] + Scan(ACCEPT, Shift(code, s), rest)
    decreases |s|
  {
    hide NextState, NextCode, TailBits, Scan;
    var next, c := NextState(state, s[0]), TailBits(code, s[0]);
    TailCode(state, code, s[0]);
    assert s + rest == [s[0]] + (s[1..] + rest);
    ScanStep(state, code, s[0], s[1..] + rest);
    if |s| == 1 {
      assert s[1..] + rest == rest;
    } else {
      ScanTail(next, c, s[1..], rest);
    }
  }

  /** The bytes lead through states inside a character to ACCEPT. */
  predicate LeadsOut(state: nat, s: seq<byte>)
    requires state <= 8
    decreases |s|
  {
    s != []
    && var next := NextState(state, s[0]);
       if |s| == 1 then next == ACCEPT else 2 <= next && LeadsOut(next, s[1..])
  }

  /** Tail bytes shifted in one after the other. */
  function Shift(code: bv32, s: seq<byte>): bv32
    decreases |s|
  {
    if s == [] then code else Shift(TailBits(code, s[0]), s[1..])
  }

  lemma CodeIsShift(s: seq<byte>)
    requires IsChar(s) && |s| > 1
    ensures CodeOf(s) == Shift(LeadBits(s[0]), s[1..])
  {
    hide LeadBits, TailBits;
    var c := TailBits(LeadBits(s[0]), s[1]);
    assert Shift(LeadBits(s[0]), s[1..]) == Shift(c, s[2..]) by { assert s[1..][1..] == s[2..]; }
    if |s| > 2 {
      var d := TailBits(c, s[2]);
      assert Shift(c, s[2..]) == Shift(d, s[3..]) by { assert s[2..][1..] == s[3..]; }
      if |s| > 3 {
        assert Shift(d, s[3..]) == Shift(TailBits(d, s[3]), s[4..]) by { assert s[3..][1..] == s[4..]; }
      }
    }
  }

  lemma LeadsOutOfChar(s: seq<byte>)
    requires IsChar(s) && |s| > 1
    ensures 2 <= NextState(ACCEPT, s[0]) && LeadsOut(NextState(ACCEPT, s[0]), s[1..])
  {
    CharStates(s);
    hide NextState, IsChar;
    var t := s[1..];
    if |t| == 2 {
      assert t[1..] == [s[2]];
    } else if |t| == 3 {
      assert t[1..] == [s[2], s[3]] && t[1..][1..] == [s[3]];
      assert LeadsOut(NextState(NextState(ACCEPT, s[0]), s[1]), t[1..]) by {
        assert LeadsOut(NextState(NextState(NextState(ACCEPT, s[0]), s[1]), s[2]), [s[3]]);
      }
    }
  }

  /** For every list of scalar values, decoding its UTF-8 encoding gives back exactly that list: at each
      boundary the automaton is in ACCEPT with the code point equal to the scalar value. */
  lemma {:induction false} ScansScalars(vs: seq<bv32>, code: bv32)
    requires AllScalars(vs)
    ensures Scan(ACCEPT, code, EncodeScalars(vs)) == vs
    decreases |vs|
  {
    hide EncodeScalar, Scalar, IsChar;
    if vs != [] {
      EncodeIsChar(vs[0]);
      ScanChar(EncodeScalar(vs[0]), code, EncodeScalars(vs[1..]));
      ScansScalars(vs[1..], vs[0]);
    }
  }

  /** Conversely, what is accepted is the encoding of the scalar values decoded from it. */
  lemma {:induction false} AcceptedIsEncoding(s: seq<byte>, code: bv32)
    requires Run(ACCEPT, s) == ACCEPT
    ensures AllScalars(Scan(ACCEPT, code, s)) && EncodeScalars(Scan(ACCEPT, code, s)) == s
    decreases |s|
  {
    hide EncodeScalar, Scalar, IsChar, CodeOf, Run;
    if s != [] {
      var n := FirstChar(s);
      var v := CodeOf(s[..n]);
      assert s == s[..n] + s[n..];
      ScanChar(s[..n], code, s[n..]);
      CharIsEncoding(s[..n]);
      AcceptedIsEncoding(s[n..], v);
      var vs := Scan(ACCEPT, v, s[n..]);
      assert ([v] + vs)[1..] == vs;
    }
  }

  // ---- NUL inside the data ----

  lemma NulSplits(u: seq<byte>, rest: seq<byte>)
    ensures WellFormed(u + [0] + rest) <==> WellFormed(u) && WellFormed(rest)
  {
    var s := u + [0] + rest;
    AutomatonIsGrammar(s);
    AutomatonIsGrammar(u);
    AutomatonIsGrammar(rest);
    hide WellFormed;
    RunAppend(ACCEPT, u + [0], rest);
    RunAppend(ACCEPT, u, [0]);
    assert [0 as byte][1..] == [];
    RejectIsFinal(rest);
  }

  /** The validator stops at the first NUL. Its verdict is that of the grammar on all the data exactly when
      there is no NUL, or the part before it is ill-formed, or the part after it is well-formed. */
  lemma VerdictOnAllDataIff(s: seq<byte>)
    ensures (WellFormed(UpToNul(s)) <==> WellFormed(s)) <==>
              || 0 !in s
              || !WellFormed(UpToNul(s))
              || (|UpToNul(s)| < |s| && WellFormed(s[|UpToNul(s)| + 1..]))
  {
    hide WellFormed;
    var u := UpToNul(s);
    if |u| < |s| {
      assert s == u + [0] + s[|u| + 1..];
      NulSplits(u, s[|u| + 1..]);
    }
  }

  /** Data is well formed exactly when both parts around its first NUL are. */
  lemma PartBeforeNul(s: seq<byte>)
    ensures var u := UpToNul(s);
            if |u| < |s| then WellFormed(s) <==> WellFormed(u) && WellFormed(s[|u| + 1..]) else u == s
  {
    hide WellFormed;
    var u := UpToNul(s);
    if |u| < |s| {
      assert s == u + [0] + s[|u| + 1..];
      NulSplits(u, s[|u| + 1..]);
    }
  }

  /** Data it is wrong about: a NUL followed by a byte no UTF-8 text contains. */
  lemma VerdictMissesTail()
    ensures WellFormed(UpToNul([0, 0xFF])) && !WellFormed([0, 0xFF])
  {
    AutomatonIsGrammar([]);
    AutomatonIsGrammar([0, 0xFF]);
    hide WellFormed;
    assert [0 as byte, 0xFF][1..] == [0xFF] && [0xFF as byte][1..] == [];
  }
}
