/**
 * packages/core/src/zip.ts, CRC_TABLE and crc32: the table-driven CRC-32 against
 * the bit-serial computation of the reflected polynomial (RFC 1952 section 8), and
 * what it never misses.
 */
module Crc32 {
  import opened Prelude

  type Word = bv32

  const ALL_ONES: Word := 0xffffffff

  // The operations of the register, named so that proofs can leave them folded.

  function Xor(a: Word, b: Word): Word { a ^ b }
  function Half(c: Word): Word { c >> 1 }
  function Twice(c: Word): Word { c << 1 }
  predicate IsOdd(c: Word) { c & 1 == 1 }
  predicate HasTop(c: Word) { c & 0x80000000 != 0 }
  function Tapped(c: Word): Word { 0xedb88320 ^ c }
  function Low(c: Word): byte { (c & 0xff) as byte }
  function Above(c: Word): Word { c >> 8 }
  function Shifted(c: Word): Word { c << 8 }
  function Of(b: byte): Word { b as Word }
  function Last(c: Word): Word { c & 1 }

  /** One bit of the shift register. */
  function Step(c: Word): Word { if IsOdd(c) then Tapped(Half(c)) else Half(c) }

  function Steps(n: nat, c: Word): Word { if n == 0 then c else Steps(n - 1, Step(c)) }

  // ----- bit by bit -----

  /** A byte without its first i bits, least significant first. */
  function Rest(b: byte, i: nat): Word { if i == 0 then Of(b) else Half(Rest(b, i - 1)) }

  /** The register after the first n bits of a byte. */
  function FeedBits(c: Word, b: byte, n: nat): Word {
    if n == 0 then c else Step(Xor(FeedBits(c, b, n - 1), Last(Rest(b, n - 1))))
  }

  /** The register after all the bits of all the bytes. */
  function FeedAll(c: Word, data: Bytes): Word {
    if data == [] then c else FeedBits(FeedAll(c, data[..|data| - 1]), data[|data| - 1], 8)
  }

  function BitSerialCrc(data: Bytes): Word { Xor(FeedAll(ALL_ONES, data), ALL_ONES) }

  // ----- the generator -----

  /** The power of x with this exponent: the register is reflected, so x^0 is the top bit. */
  function Power(n: nat): Word { if n == 0 then 0x80000000 else Half(Power(n - 1)) }

  function Polynomial(exponents: seq<nat>): Word {
    if exponents == [] then 0 else Xor(Power(exponents[0]), Polynomial(exponents[1..]))
  }

  /** x^32 + x^26 + x^23 + x^22 + x^16 + x^12 + x^11 + x^10 + x^8 + x^7 + x^5 + x^4 + x^2 + x + 1,
      without the term that leaves the register. */
  const GENERATOR: seq<nat> := [26, 23, 22, 16, 12, 11, 10, 8, 7, 5, 4, 2, 1, 0]

  lemma {:induction false} PowersAre()
    ensures Power(0) == 0x80000000 && Power(1) == 0x40000000 && Power(2) == 0x20000000 && Power(4) == 0x08000000
    ensures Power(5) == 0x04000000 && Power(7) == 0x01000000 && Power(8) == 0x00800000 && Power(10) == 0x00200000
    ensures Power(11) == 0x00100000 && Power(12) == 0x00080000 && Power(16) == 0x8000 && Power(22) == 0x200
    ensures Power(23) == 0x100 && Power(26) == 0x20
  {
    assert Power(4) == 0x08000000;
    assert Power(8) == 0x00800000;
    assert Power(12) == 0x00080000;
    assert Power(16) == 0x00008000;
    assert Power(20) == 0x00000800;
    assert Power(24) == 0x00000080;
  }

  lemma {:induction false} TapsAreTheGenerator(c: Word)
    ensures Tapped(c) == Xor(Polynomial(GENERATOR), c)
  {
    PowersAre();
    assert Polynomial([]) == 0;
    assert Polynomial([1, 0]) == 0xc0000000;
    assert Polynomial([4, 2, 1, 0]) == 0xe8000000;
    assert Polynomial([7, 5, 4, 2, 1, 0]) == 0xed000000;
  }

  // ----- facts about words -----

  lemma {:induction false} OddOfXor(a: Word, b: Word)
    ensures IsOdd(Xor(a, b)) <==> IsOdd(a) != IsOdd(b)
  {
    assert (a ^ b) & 1 == (a & 1) ^ (b & 1);
    assert a & 1 == 0 || a & 1 == 1;
    assert b & 1 == 0 || b & 1 == 1;
  }

  lemma {:induction false} HalfOfXor(a: Word, b: Word)
    ensures Half(Xor(a, b)) == Xor(Half(a), Half(b))
  {
  }

  lemma {:induction false} TwoTapsCancel(x: Word, y: Word)
    ensures Xor(Tapped(x), Tapped(y)) == Xor(x, y)
  {
  }

  lemma {:induction false} TapMovesOut(x: Word, y: Word)
    ensures Xor(Tapped(x), y) == Tapped(Xor(x, y))
  {
  }

  lemma {:induction false} XorCommutes(x: Word, y: Word)
    ensures Xor(x, y) == Xor(y, x)
  {
  }

  lemma {:induction false} TapIsInjective(x: Word, y: Word)
    requires Tapped(x) == Tapped(y)
    ensures x == y
  {
  }

  /** The polynomial's top bit tells a tapped half from a plain one. */
  lemma {:induction false} TappedIsNoHalf(a: Word, b: Word)
    ensures Tapped(Half(a)) != Half(b)
  {
  }

  lemma {:induction false} OddIsLast(a: Word)
    ensures Last(a) == if IsOdd(a) then 1 else 0
  {
  }

  lemma {:induction false} HalfAndLast(a: Word, b: Word)
    requires Half(a) == Half(b) && Last(a) == Last(b)
    ensures a == b
  {
  }

  lemma {:induction false} SameHalves(a: Word, b: Word)
    requires Half(a) == Half(b) && (IsOdd(a) <==> IsOdd(b))
    ensures a == b
  {
    hide *;
    OddIsLast(a);
    OddIsLast(b);
    HalfAndLast(a, b);
  }

  lemma {:induction false} SplitLast(r: Word)
    ensures r == Xor(Last(r), Twice(Half(r))) && !HasTop(Half(r))
  {
  }

  lemma {:induction false} TwiceIsEven(y: Word)
    ensures !IsOdd(Twice(y))
    ensures !HasTop(y) ==> Half(Twice(y)) == y
  {
  }

  lemma {:induction false} XorAssociates(a: Word, b: Word, c: Word)
    ensures Xor(a, Xor(b, c)) == Xor(Xor(a, b), c)
  {
  }

  lemma {:induction false} XorCancels(c: Word, x: Word, y: Word)
    ensures Xor(c, x) == Xor(c, y) ==> x == y
    ensures Xor(x, c) == Xor(y, c) ==> x == y
  {
  }

  lemma {:induction false} XorZero(a: Word)
    ensures Xor(a, 0) == a
  {
  }

  // ----- the register is linear, and loses nothing -----

  lemma {:induction false} StepLinear(a: Word, b: Word)
    ensures Step(Xor(a, b)) == Xor(Step(a), Step(b))
  {
    hide Xor, Half, IsOdd, Tapped;
    OddOfXor(a, b);
    HalfOfXor(a, b);
    TwoTapsCancel(Half(a), Half(b));
    TapMovesOut(Half(a), Half(b));
    TapMovesOut(Half(b), Half(a));
    XorCommutes(Half(a), Tapped(Half(b)));
    XorCommutes(Half(a), Half(b));
  }

  lemma {:induction false} StepInjective(a: Word, b: Word)
    requires Step(a) == Step(b)
    ensures a == b
  {
    hide Xor, Half, IsOdd, Tapped;
    TappedIsNoHalf(a, b);
    TappedIsNoHalf(b, a);
    if IsOdd(a) && IsOdd(b) {
      TapIsInjective(Half(a), Half(b));
    }
    SameHalves(a, b);
  }

  lemma {:induction false} StepsLinear(n: nat, a: Word, b: Word)
    ensures Steps(n, Xor(a, b)) == Xor(Steps(n, a), Steps(n, b))
  {
    hide Step, Xor;
    if n > 0 {
      StepLinear(a, b);
      StepsLinear(n - 1, Step(a), Step(b));
    }
  }

  lemma {:induction false} StepsInjective(n: nat, a: Word, b: Word)
    requires Steps(n, a) == Steps(n, b)
    ensures a == b
  {
    hide Step;
    if n > 0 {
      StepsInjective(n - 1, Step(a), Step(b));
      StepInjective(a, b);
    }
  }

  lemma {:induction false} StepsAdd(m: nat, n: nat, c: Word)
    ensures Steps(m + n, c) == Steps(n, Steps(m, c))
  {
    hide Step;
    if m > 0 {
      StepsAdd(m - 1, n, Step(c));
    }
  }

  // ----- shifting out -----

  function Up(n: nat, y: Word): Word { if n == 0 then y else Twice(Up(n - 1, y)) }

  /** Shifted up n places, y loses nothing. */
  predicate HasRoom(n: nat, y: Word) { n == 0 || (HasRoom(n - 1, y) && !HasTop(Up(n - 1, y))) }

  lemma {:induction false} StepOfTwice(y: Word)
    requires !HasTop(y)
    ensures Step(Twice(y)) == y
  {
    hide Half, Twice, IsOdd, HasTop, Tapped;
    TwiceIsEven(y);
  }

  /** Low zeros are shifted out and leave the rest as it was. */
  lemma {:induction false} ShiftOut(n: nat, y: Word)
    requires HasRoom(n, y)
    ensures Steps(n, Up(n, y)) == y
  {
    hide Step, Twice, HasTop;
    if n > 0 {
      ShiftOut(n - 1, y);
      StepOfTwice(Up(n - 1, y));
    }
  }

  /** The top k bits, k at most 8. */
  function TopMask(k: nat): Word {
    if k == 0 then 0
    else if k == 1 then 0x80000000
    else if k == 2 then 0xc0000000
    else if k == 3 then 0xe0000000
    else if k == 4 then 0xf0000000
    else if k == 5 then 0xf8000000
    else if k == 6 then 0xfc000000
    else if k == 7 then 0xfe000000
    else 0xff000000
  }

  predicate Clear(mask: Word, y: Word) { y & mask == 0 }

  /** The top byte is zero. */
  predicate IsNarrow(y: Word) { Clear(0xff000000, y) }

  lemma {:induction false} TwiceClears(y: Word)
    ensures Clear(0xff000000, y) ==> Clear(0xfe000000, Twice(y))
    ensures Clear(0xfe000000, y) ==> Clear(0xfc000000, Twice(y))
    ensures Clear(0xfc000000, y) ==> Clear(0xf8000000, Twice(y))
    ensures Clear(0xf8000000, y) ==> Clear(0xf0000000, Twice(y))
  {
  }

  lemma {:induction false} TwiceClearsMore(y: Word)
    ensures Clear(0xf0000000, y) ==> Clear(0xe0000000, Twice(y))
    ensures Clear(0xe0000000, y) ==> Clear(0xc0000000, Twice(y))
    ensures Clear(0xc0000000, y) ==> Clear(0x80000000, Twice(y))
  {
  }

  lemma {:induction false} ClearHasNoTop(y: Word)
    ensures Clear(0xff000000, y) || Clear(0xfe000000, y) || Clear(0xfc000000, y) || Clear(0xf8000000, y) ==> !HasTop(y)
    ensures Clear(0xf0000000, y) || Clear(0xe0000000, y) || Clear(0xc0000000, y) || Clear(0x80000000, y) ==> !HasTop(y)
  {
  }

  lemma {:induction false} NarrowHasRoom(n: nat, y: Word)
    requires n <= 8 && IsNarrow(y)
    ensures HasRoom(n, y) && (n < 8 ==> Clear(TopMask(8 - n), Up(n, y)))
  {
    hide Clear, HasTop, Twice;
    if n > 0 {
      NarrowHasRoom(n - 1, y);
      TwiceClears(Up(n - 1, y));
      TwiceClearsMore(Up(n - 1, y));
      ClearHasNoTop(Up(n - 1, y));
    }
  }

  lemma {:induction false} EightTwices(y: Word)
    ensures Twice(Twice(Twice(Twice(Twice(Twice(Twice(Twice(y)))))))) == Shifted(y)
  {
  }

  lemma {:induction false} UpEight(y: Word)
    ensures Up(8, y) == Shifted(y)
  {
    hide Twice, Shifted;
    EightTwices(y);
    var z := Up(4, y);
    assert z == Twice(Up(3, y)) == Twice(Twice(Up(2, y))) == Twice(Twice(Twice(Up(1, y))))
        == Twice(Twice(Twice(Twice(y))));
    assert Up(8, y) == Twice(Up(7, y)) == Twice(Twice(Up(6, y))) == Twice(Twice(Twice(Up(5, y))))
        == Twice(Twice(Twice(Twice(z))));
  }

  lemma {:induction false} NarrowShiftsOut(y: Word)
    requires IsNarrow(y)
    ensures Steps(8, Shifted(y)) == y
  {
    hide *;
    NarrowHasRoom(8, y);
    UpEight(y);
    ShiftOut(8, y);
  }

  // ----- a byte at a time -----

  /** Feeding n bits of a byte, and the rest of it waiting, is n steps of the
      register with the whole byte put in at once. */
  lemma {:induction false} FeedIsSteps(c: Word, b: byte, n: nat)
    ensures Steps(n, Xor(c, Of(b))) == Xor(FeedBits(c, b, n), Rest(b, n))
  {
    hide Step, Xor, Of, Half, Last, Twice, HasTop;
    if n > 0 {
      var m := n - 1;
      FeedIsSteps(c, b, m);
      StepsAdd(m, 1, Xor(c, Of(b)));
      var fed, rest := FeedBits(c, b, m), Rest(b, m);
      assert Steps(1, Xor(fed, rest)) == Steps(0, Step(Xor(fed, rest)));
      SplitLast(rest);
      XorAssociates(fed, Last(rest), Twice(Half(rest)));
      StepLinear(Xor(fed, Last(rest)), Twice(Half(rest)));
      StepOfTwice(Half(rest));
    }
  }

  lemma {:induction false} EightHalves(b: byte)
    ensures Half(Half(Half(Half(Half(Half(Half(Half(Of(b))))))))) == 0
  {
  }

  lemma {:induction false} RestIsNothing(b: byte)
    ensures Rest(b, 8) == 0
  {
    hide Half, Of;
    EightHalves(b);
    var r := Rest(b, 4);
    assert r == Half(Rest(b, 3)) == Half(Half(Rest(b, 2))) == Half(Half(Half(Rest(b, 1))))
        == Half(Half(Half(Half(Of(b)))));
    assert Rest(b, 8) == Half(Rest(b, 7)) == Half(Half(Rest(b, 6))) == Half(Half(Half(Rest(b, 5))))
        == Half(Half(Half(Half(r))));
  }

  lemma {:induction false} FeedByte(c: Word, b: byte)
    ensures FeedBits(c, b, 8) == Steps(8, Xor(c, Of(b)))
  {
    hide *;
    FeedIsSteps(c, b, 8);
    RestIsNothing(b);
    XorZero(FeedBits(c, b, 8));
  }

  lemma {:induction false} SplitByte(c: Word)
    ensures c == Xor(Of(Low(c)), Shifted(Above(c))) && IsNarrow(Above(c))
  {
  }

  /** What one table look-up stands for. */
  lemma {:induction false} LookUp(c: Word)
    ensures Steps(8, c) == Xor(Steps(8, Of(Low(c))), Above(c))
  {
    hide *;
    SplitByte(c);
    StepsLinear(8, Of(Low(c)), Shifted(Above(c)));
    NarrowShiftsOut(Above(c));
  }

  // ----- the table -----

  ghost predicate TableUpTo(t: seq<Word>, n: nat) {
    n <= |t| && forall i :: 0 <= i < n && i < 256 ==> t[i] == Steps(8, Of(i as byte))
  }

  method BuildTable() returns (table: array<Word>)
    ensures fresh(table) && table.Length == 256 && TableUpTo(table[..], 256)
  {
    hide Step, Steps, Of;
    table := new Word[256];
    for index := 0 to 256
      invariant TableUpTo(table[..], index)
    {
      var value := TableEntry(index as byte);
      table[index] := value;
    }
  }

  method TableEntry(index: byte) returns (value: Word)
    ensures value == Steps(8, Of(index))
  {
    hide Step, Of;
    value := Of(index);
    for bit := 0 to 8
      invariant Steps(8 - bit, value) == Steps(8, Of(index))
    {
      value := Step(value);
    }
  }

  lemma {:induction false} TableHas(t: seq<Word>, b: byte)
    requires TableUpTo(t, 256)
    ensures 0 <= b as int < |t| && t[b as int] == Steps(8, Of(b))
  {
    hide Steps, Of;
    assert 0 <= b as int < 256 && (b as int) as byte == b;
  }

  lemma {:induction false} AboveOfXor(c: Word, b: byte)
    ensures Above(Xor(c, Of(b))) == Above(c)
  {
  }

  method Crc32(data: Bytes) returns (r: Word)
    ensures r == BitSerialCrc(data)
  {
    hide Step, Steps, FeedBits, Xor, Of, Low, Above;
    var table := BuildTable();
    var crc := ALL_ONES;
    for i := 0 to |data|
      invariant TableUpTo(table[..], 256) && crc == FeedAll(ALL_ONES, data[..i])
    {
      assert data[..i + 1][..i] == data[..i];
      var index := Low(Xor(crc, Of(data[i])));
      LookUp(Xor(crc, Of(data[i])));
      AboveOfXor(crc, data[i]);
      FeedByte(crc, data[i]);
      TableHas(table[..], index);
      crc := Xor(table[index as int], Above(crc));
    }
    assert data[..|data|] == data;
    return Xor(crc, ALL_ONES);
  }

  // ----- bursts -----

  lemma {:induction false} FeedConcat(c: Word, xs: Bytes, ys: Bytes)
    ensures FeedAll(c, xs + ys) == FeedAll(FeedAll(c, xs), ys)
    decreases |ys|
  {
    hide FeedBits;
    if ys == [] {
      assert xs + ys == xs;
    } else {
      assert (xs + ys)[..|xs + ys| - 1] == xs + ys[..|ys| - 1];
      FeedConcat(c, xs, ys[..|ys| - 1]);
    }
  }

  /** Up to four bytes as one word, the first lowest. */
  function Pack(w: Bytes): Word { if w == [] then 0 else Xor(Of(w[0]), Shifted(Pack(w[1..]))) }

  predicate FitsTwo(y: Word) { Clear(0xffff0000, y) }

  predicate FitsOne(y: Word) { Clear(0xffffff00, y) }

  lemma {:induction false} PackFirst(b: byte)
    ensures Clear(0xffffff00, Xor(Of(b), Shifted(0)))
  {
  }

  lemma {:induction false} PackSecond(b: byte, p: Word)
    requires Clear(0xffffff00, p)
    ensures Clear(0xffff0000, Xor(Of(b), Shifted(p)))
  {
  }

  lemma {:induction false} PackThird(b: byte, p: Word)
    requires Clear(0xffff0000, p)
    ensures Clear(0xff000000, Xor(Of(b), Shifted(p)))
  {
  }

  lemma {:induction false} PackOneMore(b: byte, p: Word)
    ensures p == 0 ==> FitsOne(Xor(Of(b), Shifted(p)))
    ensures FitsOne(p) ==> FitsTwo(Xor(Of(b), Shifted(p)))
    ensures FitsTwo(p) ==> IsNarrow(Xor(Of(b), Shifted(p)))
  {
    hide Xor, Of, Shifted, Clear;
    PackFirst(b);
    if FitsOne(p) {
      PackSecond(b, p);
    }
    if FitsTwo(p) {
      PackThird(b, p);
    }
  }

  lemma {:induction false} NothingFitsOne()
    ensures FitsOne(0)
  {
  }

  lemma {:induction false} OneFitsTwo(p: Word)
    requires FitsOne(p)
    ensures FitsTwo(p)
  {
  }

  lemma {:induction false} TwoFitThree(p: Word)
    requires FitsTwo(p)
    ensures IsNarrow(p)
  {
  }

  lemma {:induction false} Narrower(p: Word)
    ensures (p == 0 ==> FitsOne(p)) && (FitsOne(p) ==> FitsTwo(p)) && (FitsTwo(p) ==> IsNarrow(p))
  {
    hide *;
    NothingFitsOne();
    if FitsOne(p) {
      OneFitsTwo(p);
    }
    if FitsTwo(p) {
      TwoFitThree(p);
    }
  }

  lemma {:induction false} PackFits(w: Bytes)
    requires |w| <= 3
    ensures (|w| == 0 ==> Pack(w) == 0) && (|w| <= 1 ==> FitsOne(Pack(w))) && (|w| <= 2 ==> FitsTwo(Pack(w)))
    ensures IsNarrow(Pack(w))
    decreases |w|
  {
    hide Xor, Of, Shifted, FitsOne, FitsTwo, IsNarrow;
    Narrower(Pack(w));
    if w != [] {
      PackFits(w[1..]);
      PackOneMore(w[0], Pack(w[1..]));
    }
  }

  lemma {:induction false} UnpackOne(a: byte, p: Word, b: byte, q: Word)
    requires Xor(Of(a), Shifted(p)) == Xor(Of(b), Shifted(q)) && IsNarrow(p) && IsNarrow(q)
    ensures a == b && p == q
  {
  }

  lemma {:induction false} PackInjective(v: Bytes, w: Bytes)
    requires |v| == |w| <= 4 && Pack(v) == Pack(w)
    ensures v == w
    decreases |v|
  {
    hide Xor, Of, Shifted, FitsOne, FitsTwo, IsNarrow;
    if v != [] {
      PackFits(v[1..]);
      PackFits(w[1..]);
      UnpackOne(v[0], Pack(v[1..]), w[0], Pack(w[1..]));
      PackInjective(v[1..], w[1..]);
      assert v == [v[0]] + v[1..] && w == [w[0]] + w[1..];
    }
  }

  /** Up to four bytes fed one by one are one word put in at once. */
  lemma {:induction false} FeedWindow(c: Word, w: Bytes)
    requires |w| <= 4
    ensures FeedAll(c, w) == Steps(8 * |w|, Xor(c, Pack(w)))
    decreases |w|
  {
    hide Step, FeedBits, Xor, Of, Shifted, IsNarrow, FitsOne, FitsTwo;
    if w == [] {
      XorZero(c);
    } else {
      var b, rest := w[0], w[1..];
      var p := Pack(rest);
      FeedFirst(c, w);
      FeedWindow(Steps(8, Xor(c, Of(b))), rest);
      PackFits(rest);
      NarrowShiftsOut(p);
      StepsLinear(8, Xor(c, Of(b)), Shifted(p));
      XorAssociates(c, Of(b), Shifted(p));
      StepsAdd(8, 8 * |rest|, Xor(c, Pack(w)));
    }
  }

  lemma {:induction false} FeedFirst(c: Word, w: Bytes)
    requires w != []
    ensures FeedAll(c, w) == FeedAll(Steps(8, Xor(c, Of(w[0]))), w[1..])
  {
    hide Steps, FeedBits, Xor, Of;
    assert w == [w[0]] + w[1..];
    FeedConcat(c, [w[0]], w[1..]);
    assert [w[0]][..0] == [];
    FeedByte(c, w[0]);
  }

  lemma {:induction false} FeedInjective(a: Word, b: Word, data: Bytes)
    requires FeedAll(a, data) == FeedAll(b, data)
    ensures a == b
    decreases |data|
  {
    hide Steps, FeedBits, Xor, Of;
    if data != [] {
      var front, last := data[..|data| - 1], data[|data| - 1];
      var x, y := FeedAll(a, front), FeedAll(b, front);
      FeedByte(x, last);
      FeedByte(y, last);
      StepsInjective(8, Xor(x, Of(last)), Xor(y, Of(last)));
      XorCancels(Of(last), x, y);
      FeedInjective(a, b, front);
    }
  }

  /** Equal everywhere outside one window of four consecutive bytes. */
  ghost predicate DifferOnlyInWindow(xs: Bytes, ys: Bytes, at: nat) {
    |xs| == |ys| && at <= |xs| && forall i :: 0 <= i < |xs| && !(at <= i < at + 4) ==> xs[i] == ys[i]
  }

  /** A burst is never missed: two payloads of one length that differ only inside a
      window of four consecutive bytes have different checksums. */
  lemma {:induction false} BurstsAreCaught(xs: Bytes, ys: Bytes, at: nat)
    requires DifferOnlyInWindow(xs, ys, at) && xs != ys
    ensures BitSerialCrc(xs) != BitSerialCrc(ys)
  {
    hide FeedAll, Pack, Steps, Xor;
    var end := Min(|xs|, at + 4);
    var v, w := xs[at..end], ys[at..end];
    var before, after := xs[..at], xs[end..];
    assert ys[..at] == before && ys[end..] == after;
    assert xs == before + (v + after) && ys == before + (w + after);
    var c := FeedAll(ALL_ONES, before);
    FeedConcat(ALL_ONES, before, v + after);
    FeedConcat(ALL_ONES, before, w + after);
    FeedConcat(c, v, after);
    FeedConcat(c, w, after);
    FeedWindow(c, v);
    FeedWindow(c, w);
    if BitSerialCrc(xs) == BitSerialCrc(ys) {
      XorCancels(ALL_ONES, FeedAll(ALL_ONES, xs), FeedAll(ALL_ONES, ys));
      FeedInjective(FeedAll(c, v), FeedAll(c, w), after);
      StepsInjective(8 * |v|, Xor(c, Pack(v)), Xor(c, Pack(w)));
      XorCancels(c, Pack(v), Pack(w));
      PackInjective(v, w);
    }
  }

  // ----- the value every implementation is checked against -----

  /** The register goes through these eight, one after the other. */
  predicate EightSteps(c: Word, p: Word, q: Word, r: Word, s: Word, t: Word, u: Word, v: Word, w: Word) {
    Step(c) == p && Step(p) == q && Step(q) == r && Step(r) == s && Step(s) == t && Step(t) == u && Step(u) == v
        && Step(v) == w
  }

  lemma {:induction false} EightStepsEndAt(
      c: Word, p: Word, q: Word, r: Word, s: Word, t: Word, u: Word, v: Word, w: Word)
    requires EightSteps(c, p, q, r, s, t, u, v, w)
    ensures Steps(8, c) == w
  {
    hide Step;
    assert Steps(1, v) == Steps(0, w);
    assert Steps(3, t) == Steps(2, u) == w;
    assert Steps(5, r) == Steps(4, s) == w;
    assert Steps(7, p) == Steps(6, q) == w;
  }

  const DIGITS: Bytes := [0x31, 0x32, 0x33, 0x34, 0x35, 0x36, 0x37, 0x38, 0x39]

  lemma {:induction false} FeedDigit(
      i: nat, c: Word, p: Word, q: Word, r: Word, s: Word, t: Word, u: Word, v: Word, w: Word)
    requires i < 9 && FeedAll(ALL_ONES, DIGITS[..i]) == c
    requires EightSteps(Xor(c, Of(DIGITS[i])), p, q, r, s, t, u, v, w)
    ensures FeedAll(ALL_ONES, DIGITS[..i + 1]) == w
  {
    hide EightSteps, Xor, Of, FeedBits, Steps;
    assert DIGITS[..i + 1][..i] == DIGITS[..i];
    EightStepsEndAt(Xor(c, Of(DIGITS[i])), p, q, r, s, t, u, v, w);
    FeedByte(c, DIGITS[i]);
  }

  lemma {:induction false} FirstDigits()
    ensures FeedAll(ALL_ONES, DIGITS[..3]) == 0x77b79c2d
  {
    assert FeedAll(ALL_ONES, DIGITS[..0]) == ALL_ONES;
    hide FeedAll;
    FeedDigit(0, 0xffffffff, 0x7fffffe7, 0xd2477cd3, 0x849b3d49, 0xaff51d84, 0x57fa8ec2, 0x2bfd4761, 0xf8462090,
        0x7c231048);
    FeedDigit(1, 0x7c231048, 0x3e11883d, 0xf2b0473e, 0x7958239f, 0xd11492ef, 0x8532ca57, 0xaf21e60b, 0xba287025,
        0xb0acbb32);
    FeedDigit(2, 0xb0acbb32, 0xb5eedea0, 0x5af76f50, 0x2d7bb7a8, 0x16bddbd4, 0xb5eedea, 0x5af76f5, 0xef6f385a,
        0x77b79c2d);
  }

  lemma {:induction false} MoreDigits()
    ensures FeedAll(ALL_ONES, DIGITS[..6]) == 0xf68d2c9e
  {
    hide FeedAll;
    FirstDigits();
    FeedDigit(3, 0x77b79c2d, 0xd6634d2c, 0x6b31a696, 0x3598d34b, 0xf774ea85, 0x9602f662, 0x4b017b31, 0xc8383eb8,
        0x641c1f5c);
    FeedDigit(4, 0x641c1f5c, 0xdfb68c94, 0x6fdb464a, 0x37eda325, 0xf64e52b2, 0x7b272959, 0xd02b178c, 0x68158bc6,
        0x340ac5e3);
    FeedDigit(5, 0x340ac5e3, 0xf7bde1ca, 0x7bdef0e5, 0xd057fb52, 0x682bfda9, 0xd9ad7df4, 0x6cd6befa, 0x366b5f7d,
        0xf68d2c9e);
  }

  /** Of the digits 1 to 9. */
  lemma {:induction false} CheckValue()
    ensures BitSerialCrc(DIGITS) == 0xcbf43926
  {
    hide FeedAll;
    MoreDigits();
    FeedDigit(6, 0xf68d2c9e, 0x96fe1574, 0x4b7f0aba, 0x25bf855d, 0xff67418e, 0x7fb3a0c7, 0xd2615343, 0x84882a81,
        0xaffc9660);
    FeedDigit(7, 0xaffc9660, 0x57fe4b2c, 0x2bff2596, 0x15ff92cb, 0xe7474a45, 0x9e1b2602, 0x4f0d9301, 0xca3e4aa0,
        0x651f2550);
    FeedDigit(8, 0x651f2550, 0xdf371194, 0x6f9b88ca, 0x37cdc465, 0xf65e6112, 0x7b2f3089, 0xd02f1b64, 0x68178db2,
        0x340bc6d9);
    assert DIGITS[..9] == DIGITS;
  }
}
