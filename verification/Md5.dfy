/** MD5 (fw_md5.c), against the description of the algorithm in section 3 of RFC 1321. */
module Md5 {
  import opened Bytes

  /** A word of 32 bits. */
  type Word = x: int | 0 <= x < TWO_TO_THE_32

  function Add(x: Word, y: Word): Word { (x + y) % TWO_TO_THE_32 }

  function WordOfBits(b: bv32): Word { b as int }

  function And(x: Word, y: Word): Word { WordOfBits((x as bv32) & (y as bv32)) }

  function Or(x: Word, y: Word): Word { WordOfBits((x as bv32) | (y as bv32)) }

  function Xor(x: Word, y: Word): Word { WordOfBits((x as bv32) ^ (y as bv32)) }

  function Not(x: Word): Word { WordOfBits(!(x as bv32)) }

  function Rotl(x: Word, n: nat): Word
    requires n <= 32
  {
    WordOfBits(((x as bv32) << n) | ((x as bv32) >> (32 - n)))
  }

  /** The four registers. */
  datatype Regs = Regs(a: Word, b: Word, c: Word, d: Word)

  /** Section 3.3. */
  const START: Regs := Regs(0x67452301, 0xefcdab89, 0x98badcfe, 0x10325476)

  /** T[1..64] of section 3.4. */
  const T: seq<Word> :=
    [0xd76aa478, 0xe8c7b756, 0x242070db, 0xc1bdceee, 0xf57c0faf, 0x4787c62a, 0xa8304613, 0xfd469501,
     0x698098d8, 0x8b44f7af, 0xffff5bb1, 0x895cd7be, 0x6b901122, 0xfd987193, 0xa679438e, 0x49b40821,
     0xf61e2562, 0xc040b340, 0x265e5a51, 0xe9b6c7aa, 0xd62f105d, 0x02441453, 0xd8a1e681, 0xe7d3fbc8,
     0x21e1cde6, 0xc33707d6, 0xf4d50d87, 0x455a14ed, 0xa9e3e905, 0xfcefa3f8, 0x676f02d9, 0x8d2a4c8a,
     0xfffa3942, 0x8771f681, 0x6d9d6122, 0xfde5380c, 0xa4beea44, 0x4bdecfa9, 0xf6bb4b60, 0xbebfbc70,
     0x289b7ec6, 0xeaa127fa, 0xd4ef3085, 0x04881d05, 0xd9d4d039, 0xe6db99e5, 0x1fa27cf8, 0xc4ac5665,
     0xf4292244, 0x432aff97, 0xab9423a7, 0xfc93a039, 0x655b59c3, 0x8f0ccc92, 0xffeff47d, 0x85845dd1,
     0x6fa87e4f, 0xfe2ce6e0, 0xa3014314, 0x4e0811a1, 0xf7537e82, 0xbd3af235, 0x2ad7d2bb, 0xeb86d391]

  function Constant(i: nat): Word
    requires i < 64
  {
    T[i]
  }

  // ---- Section 3.4: the operations -----------------------------------------------------------

  function F(x: Word, y: Word, z: Word): Word { Or(And(x, y), And(Not(x), z)) }

  function G(x: Word, y: Word, z: Word): Word { Or(And(x, z), And(y, Not(z))) }

  function H(x: Word, y: Word, z: Word): Word { Xor(Xor(x, y), z) }

  function I(x: Word, y: Word, z: Word): Word { Xor(y, Or(x, Not(z))) }

  function Mix(round: nat, x: Word, y: Word, z: Word): Word {
    if round == 0 then F(x, y, z) else if round == 1 then G(x, y, z) else if round == 2 then H(x, y, z) else I(x, y, z)
  }

  /** The shift amounts of the four rounds, each used four times over. */
  const SHIFTS: seq<seq<nat>> := [[7, 12, 17, 22], [5, 9, 14, 20], [4, 11, 16, 23], [6, 10, 15, 21]]

  function Shift(i: nat): (n: nat)
    requires i < 64
    ensures n <= 32
  {
    SHIFTS[i / 16][i % 4]
  }

  /** The order in which the rounds take the words of the block, as their operations list them. */
  const ORDER: seq<seq<nat>> :=
    [[0, 1, 2, 3, 4, 5, 6, 7, 8, 9, 10, 11, 12, 13, 14, 15],
     [1, 6, 11, 0, 5, 10, 15, 4, 9, 14, 3, 8, 13, 2, 7, 12],
     [5, 8, 11, 14, 1, 4, 7, 10, 13, 0, 3, 6, 9, 12, 15, 2],
     [0, 7, 14, 5, 12, 3, 10, 1, 8, 15, 6, 13, 4, 11, 2, 9]]

  function WordAt(i: nat): (k: nat)
    requires i < 64
    ensures k < 16
  {
    ORDER[i / 16][i % 16]
  }

  /** [abcd k s i]: a = b + ((a + mix(b, c, d) + X[k] + T[i]) <<< s) */
  function Operation(i: nat, x: seq<Word>, a: Word, b: Word, c: Word, d: Word): Word
    requires i < 64 && |x| == 16
  {
    Add(b, Rotl(Add(Add(Add(a, Mix(i / 16, b, c, d)), Constant(i)), x[WordAt(i)]), Shift(i)))
  }

  /** The first i operations of the 64, on ABCD, DABC, CDAB, BCDA and so on. */
  function Operations(i: nat, x: seq<Word>, r0: Regs): Regs
    requires i <= 64 && |x| == 16
  {
    if i == 0 then r0
    else
      var r := Operations(i - 1, x, r0);
      var k := i - 1;
      if k % 4 == 0 then r.(a := Operation(k, x, r.a, r.b, r.c, r.d))
      else if k % 4 == 1 then r.(d := Operation(k, x, r.d, r.a, r.b, r.c))
      else if k % 4 == 2 then r.(c := Operation(k, x, r.c, r.d, r.a, r.b))
      else r.(b := Operation(k, x, r.b, r.c, r.d, r.a))
  }

  /** The word of four bytes, low-order byte first. */
  function WordOf(s: seq<Byte>): Word
    requires |s| == 4
  {
    Pow256Values();
    FromLe(s)
  }

  function Words(block: seq<Byte>): (x: seq<Word>)
    requires |block| == 64
    ensures |x| == 16
  {
    seq(16, i requires 0 <= i < 16 => WordOf(block[4 * i..4 * i + 4]))
  }

  function Compress(r: Regs, block: seq<Byte>): Regs
    requires |block| == 64
  {
    var n := Operations(64, Words(block), r);
    Regs(Add(r.a, n.a), Add(r.b, n.b), Add(r.c, n.c), Add(r.d, n.d))
  }

  lemma BlocksLeft(n: nat)
    requires n % 64 == 0 && n > 0
    ensures 64 <= n && (n - 64) % 64 == 0
  {
  }

  function Blocks(r: Regs, s: seq<Byte>): Regs
    requires |s| % 64 == 0
    decreases |s|
  {
    if s == [] then r
    else
      BlocksLeft(|s|);
      Blocks(Compress(r, s[..64]), s[64..])
  }

  // ---- Sections 3.1, 3.2 and 3.5 ---------------------------------------------------------------

  function Zeros(n: nat): (s: seq<Byte>)
    ensures |s| == n
  {
    seq(n, _ => 0)
  }

  /** The zeros of the padding. */
  function PadLength(n: nat): (k: nat)
    ensures k < 64 && (n + 1 + k) % 64 == 56
  {
    PadFits(n / 64, n % 64);
    (119 - n % 64) % 64
  }

  lemma PadFits(q: nat, r: nat)
    requires r < 64
    ensures (64 * q + r + 1 + (119 - r) % 64) % 64 == 56
  {
    if r < 56 {
      assert (119 - r) % 64 == 55 - r;
    } else {
      assert (119 - r) % 64 == 119 - r;
    }
  }

  /** A one bit, zeros up to 448 modulo 512 bits, and the low 64 bits of the length in bits. */
  function Padded(m: seq<Byte>): (s: seq<Byte>)
    ensures |s| % 64 == 0
  {
    PadAligned(|m| + 1 + PadLength(|m|));
    m + [0x80] + Zeros(PadLength(|m|)) + Le(|m| * 8 % TWO_TO_THE_64, 8)
  }

  lemma PadAligned(n: nat)
    requires n % 64 == 56
    ensures (n + 8) % 64 == 0
  {
  }

  function Digest(m: seq<Byte>): (s: seq<Byte>)
    ensures |s| == 16
  {
    var r := Blocks(START, Padded(m));
    Le(r.a, 4) + Le(r.b, 4) + Le(r.c, 4) + Le(r.d, 4)
  }

  // ---- The same, with the registers shifted instead ----------------------------------------------

  /** What transform() computes for a word's index. */
  function Index(i: nat): (g: nat)
    requires i < 64
    ensures g < 16
  {
    if i < 16 then i else if i < 32 then (5 * i + 1) % 16 else if i < 48 then (3 * i + 5) % 16 else 7 * i % 16
  }

  lemma IndexIsWordAt(i: nat)
    requires i < 64
    ensures Index(i) == WordAt(i)
  {
    var j := i % 16;
    assert i == 16 * (i / 16) + j;
    if j < 8 {
      assert j in {0, 1, 2, 3, 4, 5, 6, 7};
    } else {
      assert j in {8, 9, 10, 11, 12, 13, 14, 15};
    }
  }

  /** One turn of the loop of transform(). */
  function Turn(i: nat, x: seq<Word>, v: Regs): Regs
    requires i < 64 && |x| == 16
  {
    Regs(v.d, Add(v.b, Rotl(Add(Add(Add(v.a, Mix(i / 16, v.b, v.c, v.d)), Constant(i)), x[Index(i)]), Shift(i))),
        v.b, v.c)
  }

  function Turns(i: nat, x: seq<Word>, v: Regs): Regs
    requires i <= 64 && |x| == 16
  {
    if i == 0 then v else Turn(i - 1, x, Turns(i - 1, x, v))
  }

  /** The registers in the order in which the next operation names them. */
  function Shifted(i: nat, r: Regs): Regs {
    if i % 4 == 0 then r
    else if i % 4 == 1 then Regs(r.d, r.a, r.b, r.c)
    else if i % 4 == 2 then Regs(r.c, r.d, r.a, r.b)
    else Regs(r.b, r.c, r.d, r.a)
  }

  lemma TurnIsOperation(i: nat, x: seq<Word>, v: Regs)
    requires i < 64 && |x| == 16
    ensures Turn(i, x, v) == Regs(v.d, Operation(i, x, v.a, v.b, v.c, v.d), v.b, v.c)
  {
    hide Mix, Rotl, Constant, Index, WordAt, Shift, Add;
    IndexIsWordAt(i);
  }

  /** Shifting the registers round comes to the operations of the standard. */
  lemma {:induction false} TurnsAreOperations(i: nat, x: seq<Word>, r: Regs)
    requires i <= 64 && |x| == 16
    ensures Turns(i, x, r) == Shifted(i, Operations(i, x, r))
  {
    hide Operation, Turn;
    if i > 0 {
      TurnsAreOperations(i - 1, x, r);
      TurnIsOperation(i - 1, x, Turns(i - 1, x, r));
    }
  }

  lemma {:induction false} BlocksConcat(r: Regs, s: seq<Byte>, t: seq<Byte>)
    requires |s| % 64 == 0 && |t| % 64 == 0
    ensures Blocks(r, s + t) == Blocks(Blocks(r, s), t)
    decreases |s|
  {
    hide Compress;
    if s == [] {
      assert s + t == t;
    } else {
      BlocksConcat(Compress(r, s[..64]), s[64..], t);
      assert (s + t)[..64] == s[..64] && (s + t)[64..] == s[64..] + t;
    }
  }

  lemma OneBlock(r: Regs, s: seq<Byte>, b: seq<Byte>)
    requires |s| % 64 == 0 && |b| == 64
    ensures Blocks(r, s + b) == Compress(Blocks(r, s), b)
  {
    hide Compress;
    BlocksConcat(r, s, b);
    assert b[..64] == b && b[64..] == [];
  }

  // ---- The program -----------------------------------------------------------------------------------

  /** The state is that of the whole blocks fed, the rest waits in the buffer. */
  ghost predicate Holds(fed: seq<Byte>, block: seq<Byte>, state: Regs) {
    && |block| < 64 && |block| <= |fed| && (|fed| - |block|) % 64 == 0
    && fed[|fed| - |block|..] == block
    && state == Blocks(START, fed[..|fed| - |block|])
  }

  lemma HoldsFirst()
    ensures Holds([], [], START)
  {
    hide Compress;
  }

  /** A piece that at most fills the buffer. */
  lemma HoldsOn(fed: seq<Byte>, block: seq<Byte>, state: Regs, p: seq<Byte>)
    requires Holds(fed, block, state) && |block| + |p| <= 64
    ensures if |block| + |p| < 64 then Holds(fed + p, block + p, state)
            else Holds(fed + p, [], Compress(state, block + p))
  {
    hide Compress, Blocks;
    var whole := fed[..|fed| - |block|];
    assert fed == whole + block;
    assert fed + p == whole + (block + p);
    if |block| + |p| == 64 {
      OneBlock(START, whole, block + p);
      assert (fed + p)[..|fed + p|] == fed + p;
    } else {
      assert (fed + p)[..|whole|] == whole && (fed + p)[|whole|..] == block + p;
    }
  }

  /** struct fw_md5; `block` is the part of the buffer in use. */
  class Context {
    var state: Regs
    var length: nat
    var block: seq<Byte>
    ghost var fed: seq<Byte>

    ghost predicate Valid()
      reads this
    {
      Holds(fed, block, state) && length == |fed| % TWO_TO_THE_64
    }

    /** fw_md5_init() */
    constructor ()
      ensures Valid() && fed == []
    {
      hide Holds;
      HoldsFirst();
      state, length, block, fed := START, 0, [], [];
    }

    method Transform(b: seq<Byte>)
      requires |b| == 64
      modifies `state
      ensures state == Compress(old(state), b)
    {
      hide Mix, Rotl, Constant, Shift, WordOf, Operations, Add, And, Or, Xor, Not;
      var x := ReadWords(b);
      var m := x[..];
      var v := state;
      var i := 0;
      while i < 64
        invariant i <= 64 && v == Turns(i, m, state) && state == old(state)
      {
        var f, g;
        if i < 16 {
          f := Or(And(v.b, v.c), And(Not(v.b), v.d));
          g := i;
        } else if i < 32 {
          f := Or(And(v.d, v.b), And(Not(v.d), v.c));
          g := (5 * i + 1) % 16;
        } else if i < 48 {
          f := Xor(Xor(v.b, v.c), v.d);
          g := (3 * i + 5) % 16;
        } else {
          f := Xor(v.c, Or(v.b, Not(v.d)));
          g := 7 * i % 16;
        }
        MixIs(i, v.b, v.c, v.d);
        v := Regs(v.d, Add(v.b, Rotl(Add(Add(Add(v.a, f), Constant(i)), m[g]), Shift(i))), v.b, v.c);
        i := i + 1;
      }
      TurnsAreOperations(64, m, state);
      state := Regs(Add(state.a, v.a), Add(state.b, v.b), Add(state.c, v.c), Add(state.d, v.d));
    }

    static method ReadWords(b: seq<Byte>) returns (x: array<Word>)
      requires |b| == 64
      ensures x[..] == Words(b) && fresh(x)
    {
      hide WordOf;
      x := new Word[16](_ => 0);
      var i := 0;
      while i < 16
        invariant i <= 16 && forall k | 0 <= k < i :: x[k] == Words(b)[k]
      {
        x[i] := WordOf(b[4 * i..4 * i + 4]);
        i := i + 1;
      }
    }

    static lemma MixIs(i: nat, b: Word, c: Word, d: Word)
      requires i < 64
      ensures Mix(i / 16, b, c, d) ==
              if i < 16 then Or(And(b, c), And(Not(b), d)) else if i < 32 then Or(And(d, b), And(Not(d), c))
              else if i < 48 then Xor(Xor(b, c), d) else Xor(c, Or(b, Not(d)))
    {
      hide And, Or, Xor, Not;
      AndCommutes(b, d);
      AndCommutes(c, Not(d));
    }

    static lemma AndCommutes(x: Word, y: Word)
      ensures And(x, y) == And(y, x)
    {
    }

    /** fw_md5_update(), however the message is cut into calls. */
    method Update(data: seq<Byte>)
      requires Valid()
      modifies this
      ensures Valid() && fed == old(fed) + data
    {
      hide Compress, Blocks;
      length := (length + |data|) % TWO_TO_THE_64;
      var rest := data;
      assert fed == old(fed) + data[..0];
      while |rest| > 0
        invariant |rest| <= |data| && rest == data[|data| - |rest|..]
        invariant fed == old(fed) + data[..|data| - |rest|] && Holds(fed, block, state)
        invariant length == (|old(fed)| + |data|) % TWO_TO_THE_64
      {
        var n := 64 - |block|;
        if n > |rest| {
          n := |rest|;
        }
        HoldsOn(fed, block, state, rest[..n]);
        Taken(data, |data| - |rest|, n);
        block := block + rest[..n];
        fed := fed + rest[..n];
        rest := rest[n..];
        if |block| == 64 {
          Transform(block);
          block := [];
        }
      }
      assert data[..|data|] == data;
    }

    static lemma Taken(data: seq<Byte>, k: nat, n: nat)
      requires k + n <= |data|
      ensures data[..k] + data[k..][..n] == data[..k + n] && data[k..][n..] == data[k + n..]
    {
    }

    /** The zeros of fw_md5_final(): the loop that waits for 56 bytes in the buffer comes to its end. */
    method PadZeros()
      requires Valid()
      modifies this
      ensures Valid() && fed == old(fed) + Zeros((120 - |old(fed)| % 64) % 64)
    {
      hide Compress, Blocks, Holds, Zeros;
      ghost var zeros := 0;
      UsedIs();
      NoZeros(fed);
      while |block| != 56
        invariant Valid() && |block| == |fed| % 64 && fed == old(fed) + Zeros(zeros)
        invariant zeros + (120 - |block|) % 64 == (120 - |old(fed)| % 64) % 64
        decreases (120 - |block|) % 64
      {
        OneZero(old(fed), zeros);
        Update([0]);
        UsedIs();
        OneByte(|fed| - 1);
        zeros := zeros + 1;
      }
    }

    static lemma NoZeros(s: seq<Byte>)
      ensures s + Zeros(0) == s
    {
    }

    static lemma OneZero(s: seq<Byte>, n: nat)
      ensures s + Zeros(n) + [0] == s + Zeros(n + 1)
    {
    }

    static lemma OneByte(n: nat)
      requires n % 64 != 56
      ensures (120 - (n + 1) % 64) % 64 + 1 == (120 - n % 64) % 64
    {
    }

    /** fw_md5_final(): the digest of everything fed. */
    method Final() returns (digest: seq<Byte>)
      requires Valid()
      modifies this
      ensures digest == Digest(old(fed))
    {
      hide Compress, Blocks, Holds, Le, Padded, Zeros;
      ghost var m := fed;
      var bits := length * 8 % TWO_TO_THE_64;
      BitsOf(|m|, length);
      Update([0x80]);
      PadZeros();
      ghost var n := |fed|;
      Update(Le(bits, 8));
      PaddedIs(m, bits);
      AllBlocks();
      digest := Le(state.a, 4) + Le(state.b, 4) + Le(state.c, 4) + Le(state.d, 4);
    }

    static lemma PaddedIs(m: seq<Byte>, bits: nat)
      requires bits == |m| * 8 % TWO_TO_THE_64
      ensures Padded(m) == m + [0x80] + Zeros((120 - |m + [0x80]| % 64) % 64) + Le(bits, 8)
      ensures |Padded(m)| % 64 == 0
    {
      hide Zeros, Le;
      SameZeros(|m| / 64, |m| % 64);
    }

    static lemma SameZeros(q: nat, r: nat)
      requires r < 64
      ensures (120 - (64 * q + r + 1) % 64) % 64 == (119 - r) % 64
    {
      if r == 63 {
        assert (64 * q + r + 1) % 64 == 0;
      } else {
        assert (64 * q + r + 1) % 64 == r + 1;
      }
    }

    static lemma BitsOf(n: nat, length: nat)
      requires length == n % TWO_TO_THE_64
      ensures length * 8 % TWO_TO_THE_64 == n * 8 % TWO_TO_THE_64
    {
    }

    lemma UsedIs()
      requires Valid()
      ensures |block| == |fed| % 64
    {
      hide Blocks;
      var q := (|fed| - |block|) / 64;
      assert |fed| == 64 * q + |block|;
    }

    lemma AllBlocks()
      requires Valid() && |fed| % 64 == 0
      ensures state == Blocks(START, fed)
    {
      hide Blocks;
      assert fed[..|fed|] == fed;
    }
  }

  /** fw_md5() */
  method Md5Of(data: seq<Byte>) returns (digest: seq<Byte>)
    ensures digest == Digest(data)
  {
    hide Holds, Padded, Blocks;
    var c := new Context();
    c.Update(data);
    assert [] + data == data;
    digest := c.Final();
  }
}
