/** The Blowfish variant the protocol uses: a block cipher run as output feedback from a zero block
  * (the shape of section 6.4 of NIST SP 800-38A). The box constants are any boxes of the right size. */
module Cipher {

  type Word = bv32
  type Octet = bv8
  type Block = (Word, Word)

  const ROUNDS := 16
  const KEY_WORDS := 18
  const SUBSTITUTIONS := 1024

  /** The direction flags: kEncrypt is zero, and DoCrypto tests its flag for being non-zero. */
  const K_ENCRYPT := 0
  const K_DECRYPT := 1

  datatype Boxes = Boxes(p: seq<Word>, s: seq<Word>) {
    predicate Valid() {
      |p| == KEY_WORDS && |s| == SUBSTITUTIONS
    }
  }

  function Xor(a: Word, b: Word): Word {
    a ^ b
  }

  function XorOctet(a: Octet, b: Octet): Octet {
    a ^ b
  }

  lemma XorTwice(a: Word, b: Word)
    ensures Xor(Xor(a, b), b) == a
  {
  }

  lemma XorOctetTwice(a: Octet, b: Octet)
    ensures XorOctet(XorOctet(a, b), b) == a
  {
  }

  // ---------------------------------------------------------------------------
  // The block cipher
  // ---------------------------------------------------------------------------

  /** The word a round mixes in, from four substitutions. */
  function Substitute(s: seq<Word>, r: Word): Word
    requires |s| == SUBSTITUTIONS
  {
    var a := ((r >> 24) as Octet) as int;
    var b := (((r >> 16) & 0xff) as Octet) as int;
    var c := (((r >> 8) & 0xff) as Octet) as int;
    var d := ((r & 0xff) as Octet) as int;
    ((s[a] + s[0x100 + b]) ^ s[0x200 + c]) + s[0x300 + d]
  }

  /** blowfishEncode: `ll` mixed with one key word and the substitution of `r`. */
  function Encode(ll: Word, r: Word, s: seq<Word>, p: Word): Word
    requires |s| == SUBSTITUTIONS
  {
    Xor(Xor(ll, p), Substitute(s, r))
  }

  /** One round per key, the two halves changing roles after each. */
  function Feistel(s: seq<Word>, keys: seq<Word>, x: Word, y: Word): Block
    requires |s| == SUBSTITUTIONS
    decreases |keys|
  {
    if keys == [] then (x, y)
    else Feistel(s, keys[1..], Encode(y, x, s, keys[0]), x)
  }

  function Reverse(keys: seq<Word>): (r: seq<Word>)
    ensures |r| == |keys|
    ensures forall i | 0 <= i < |r| :: r[i] == keys[|keys| - 1 - i]
  {
    if keys == [] then [] else Reverse(keys[1..]) + [keys[0]]
  }

  function Crypt(s: seq<Word>, p: seq<Word>, block: Block): Block
    requires |s| == SUBSTITUTIONS && |p| == KEY_WORDS
  {
    var (x, y) := Feistel(s, p[1..ROUNDS + 1], Xor(block.0, p[0]), block.1);
    (Xor(y, p[ROUNDS + 1]), x)
  }

  function DoCryptoSpec(boxes: Boxes, block: Block, encrypt: int): Block
    requires boxes.Valid()
  {
    Crypt(boxes.s, if encrypt != 0 then boxes.p else Reverse(boxes.p), block)
  }

  lemma {:induction false} FeistelSnoc(s: seq<Word>, keys: seq<Word>, k: Word, x: Word, y: Word)
    requires |s| == SUBSTITUTIONS
    ensures
      var (a, b) := Feistel(s, keys, x, y);
      Feistel(s, keys + [k], x, y) == (Encode(b, a, s, k), a)
    decreases |keys|
  {
    hide Encode;
    if keys == [] {
      assert ([k])[1..] == [] && keys + [k] == [k];
      assert Feistel(s, [k], x, y) == Feistel(s, [], Encode(y, x, s, k), x);
    } else {
      assert (keys + [k])[1..] == keys[1..] + [k];
      FeistelSnoc(s, keys[1..], k, Encode(y, x, s, keys[0]), x);
    }
  }

  /** Running the rounds backwards, with the halves exchanged, undoes them. */
  lemma {:induction false} FeistelInverse(s: seq<Word>, keys: seq<Word>, x: Word, y: Word)
    requires |s| == SUBSTITUTIONS
    ensures
      var (a, b) := Feistel(s, keys, x, y);
      Feistel(s, Reverse(keys), b, a) == (y, x)
    decreases |keys|
  {
    hide Encode, Substitute;
    if keys != [] {
      var k, y' := keys[0], Encode(y, x, s, keys[0]);
      var (a, b) := Feistel(s, keys[1..], y', x);
      FeistelInverse(s, keys[1..], y', x);
      FeistelSnoc(s, Reverse(keys[1..]), k, b, a);
      EncodeTwice(y, x, s, k);
    }
  }

  lemma EncodeTwice(ll: Word, r: Word, s: seq<Word>, k: Word)
    requires |s| == SUBSTITUTIONS
    ensures Encode(Encode(ll, r, s, k), r, s, k) == ll
  {
    hide Substitute;
  }

  lemma ReverseMiddle(p: seq<Word>)
    requires |p| == KEY_WORDS
    ensures Reverse(p)[1..ROUNDS + 1] == Reverse(p[1..ROUNDS + 1])
    ensures Reverse(Reverse(p)) == p
  {
    hide Reverse;
    var q := Reverse(p);
    assert q[1..ROUNDS + 1] == Reverse(p[1..ROUNDS + 1]);
    assert forall i | 0 <= i < |p| :: Reverse(q)[i] == q[|p| - 1 - i] == p[i];
  }

  lemma CryptInverse(s: seq<Word>, p: seq<Word>, block: Block)
    requires |s| == SUBSTITUTIONS && |p| == KEY_WORDS
    ensures Crypt(s, Reverse(p), Crypt(s, p, block)) == block
  {
    hide Feistel, Reverse, Xor;
    ReverseMiddle(p);
    var keys := p[1..ROUNDS + 1];
    FeistelInverse(s, keys, Xor(block.0, p[0]), block.1);
    var (x, y) := Feistel(s, keys, Xor(block.0, p[0]), block.1);
    XorTwice(y, p[ROUNDS + 1]);
    XorTwice(block.0, p[0]);
    assert Reverse(p)[0] == p[ROUNDS + 1] && Reverse(p)[ROUNDS + 1] == p[0];
  }

  /** For any boxes, the two directions of the block cipher undo each other. */
  lemma DirectionsAreInverse(boxes: Boxes, block: Block, encrypt: int, back: int)
    requires boxes.Valid() && (encrypt != 0) != (back != 0)
    ensures DoCryptoSpec(boxes, DoCryptoSpec(boxes, block, encrypt), back) == block
  {
    hide Crypt;
    ReverseMiddle(boxes.p);
    CryptInverse(boxes.s, if encrypt != 0 then boxes.p else Reverse(boxes.p), block);
  }

  // ---------------------------------------------------------------------------
  // The published algorithm
  // ---------------------------------------------------------------------------

  /** The function F of Blowfish: the four octets of a word, looked up and combined. */
  function RoundFunction(s: seq<Word>, w: Word): Word
    requires |s| == SUBSTITUTIONS
  {
    var d := WordOctets(w);
    Combined(s[d[0] as int], s[256 + d[1] as int], s[512 + d[2] as int], s[768 + d[3] as int])
  }

  function Combined(a: Word, b: Word, c: Word, d: Word): Word {
    ((a + b) ^ c) + d
  }

  /** Rounds as published: the key word into the left half, F of it into the right half, and exchange. */
  function Rounds(s: seq<Word>, keys: seq<Word>, l: Word, r: Word): Block
    requires |s| == SUBSTITUTIONS
    decreases |keys|
  {
    if keys == [] then (l, r)
    else
      var l' := Xor(l, keys[0]);
      Rounds(s, keys[1..], Xor(r, RoundFunction(s, l')), l')
  }

  /** Blowfish as published (B. Schneier, "Description of a New Variable-Length Key, 64-Bit Block Cipher",
    * 1993): sixteen rounds, the last exchange undone, and the last two key words. */
  function Published(s: seq<Word>, p: seq<Word>, block: Block): Block
    requires |s| == SUBSTITUTIONS && |p| == KEY_WORDS
  {
    var (r, l) := Rounds(s, p[..16], block.0, block.1);
    (Xor(l, p[17]), Xor(r, p[16]))
  }

  lemma XorCommutes(a: Word, b: Word)
    ensures Xor(a, b) == Xor(b, a)
  {
  }

  lemma XorAssociates(a: Word, b: Word, c: Word)
    ensures Xor(Xor(a, b), c) == Xor(a, Xor(b, c))
  {
  }

  lemma XorMoves(a: Word, b: Word, c: Word)
    ensures Xor(Xor(a, b), c) == Xor(Xor(a, c), b)
  {
    hide Xor;
    XorAssociates(a, b, c);
    XorCommutes(b, c);
    XorAssociates(a, c, b);
  }

  lemma OctetsOfWord(w: Word)
    ensures
      var d := WordOctets(w);
      && d[0] == (w >> 24) as Octet && d[1] == ((w >> 16) & 0xff) as Octet
      && d[2] == ((w >> 8) & 0xff) as Octet && d[3] == (w & 0xff) as Octet
  {
  }

  lemma SubstituteCombines(s: seq<Word>, w: Word)
    requires |s| == SUBSTITUTIONS
    ensures
      Substitute(s, w)
      == Combined(s[((w >> 24) as Octet) as int], s[256 + (((w >> 16) & 0xff) as Octet) as int],
                  s[512 + (((w >> 8) & 0xff) as Octet) as int], s[768 + ((w & 0xff) as Octet) as int])
  {
  }

  lemma SubstituteIsF(s: seq<Word>, w: Word)
    requires |s| == SUBSTITUTIONS
    ensures Substitute(s, w) == RoundFunction(s, w)
  {
    hide Combined, Substitute, WordOctets;
    OctetsOfWord(w);
    SubstituteCombines(s, w);
  }

  lemma EncodeIsRound(s: seq<Word>, r: Word, l: Word, k: Word)
    requires |s| == SUBSTITUTIONS
    ensures Encode(r, l, s, k) == Xor(Xor(r, RoundFunction(s, l)), k)
  {
    hide Xor, Substitute, RoundFunction;
    SubstituteIsF(s, l);
    XorMoves(r, k, RoundFunction(s, l));
  }

  /** The program mixes each round's key word in one round earlier. */
  lemma {:induction false} FeistelIsRounds(s: seq<Word>, keys: seq<Word>, last: Word, l: Word, r: Word)
    requires |s| == SUBSTITUTIONS
    ensures
      var (a, b) := Rounds(s, keys, l, r);
      var first, rest := (keys + [last])[0], (keys + [last])[1..];
      Feistel(s, rest, Xor(l, first), r) == (Xor(a, last), b)
    decreases |keys|
  {
    hide Xor, Encode, RoundFunction;
    if keys == [] {
      assert (keys + [last])[1..] == [];
    } else {
      var l' := Xor(l, keys[0]);
      var rest := (keys + [last])[1..];
      assert rest == keys[1..] + [last];
      EncodeIsRound(s, r, l', rest[0]);
      FeistelIsRounds(s, keys[1..], last, Xor(r, RoundFunction(s, l')), l');
    }
  }

  lemma CryptIsPublished(s: seq<Word>, p: seq<Word>, block: Block)
    requires |s| == SUBSTITUTIONS && |p| == KEY_WORDS
    ensures Crypt(s, p, block) == Published(s, p, block)
  {
    hide Xor, Feistel, Rounds;
    FeistelIsRounds(s, p[..16], p[16], block.0, block.1);
    assert p[..16] + [p[16]] == p[..17] && p[..17][1..] == p[1..17];
  }

  /** The block cipher is Blowfish as published: with a non-zero flag its encryption, and with the flag zero,
    * which the server calls encryption, the same with the key words in reverse, its decryption. */
  lemma BlockCipherIsBlowfish(boxes: Boxes, block: Block, encrypt: int)
    requires boxes.Valid()
    ensures encrypt != 0 ==> DoCryptoSpec(boxes, block, encrypt) == Published(boxes.s, boxes.p, block)
    ensures encrypt == 0 ==> Published(boxes.s, boxes.p, DoCryptoSpec(boxes, block, encrypt)) == block
  {
    hide Crypt, Published;
    CryptIsPublished(boxes.s, boxes.p, block);
    CryptIsPublished(boxes.s, boxes.p, DoCryptoSpec(boxes, block, encrypt));
    if encrypt == 0 {
      DirectionsAreInverse(boxes, block, encrypt, 1);
    }
  }

  // ---------------------------------------------------------------------------
  // The keystream
  // ---------------------------------------------------------------------------

  function Octets(block: Block): (d: seq<Octet>)
    ensures |d| == 8
  {
    WordOctets(block.0) + WordOctets(block.1)
  }

  function WordOctets(w: Word): (d: seq<Octet>)
    ensures |d| == 4
  {
    [(w >> 24) as Octet, ((w >> 16) & 0xff) as Octet, ((w >> 8) & 0xff) as Octet, (w & 0xff) as Octet]
  }

  /** The octets of a block are its words', first word and high octet first. */
  lemma OctetsInOrder(block: Block)
    ensures
      var d := Octets(block);
      Concat(d[0], d[1], d[2], d[3]) == block.0 && Concat(d[4], d[5], d[6], d[7]) == block.1
  {
    hide WordOctets, Concat;
    ConcatOfOctets(block.0);
    ConcatOfOctets(block.1);
  }

  /** mungeData from keystream block `ti`, whose octets are `d`, at position `offset` within it. */
  function Munge(boxes: Boxes, ti: Block, d: seq<Octet>, offset: nat, input: seq<Octet>): (out: seq<Octet>)
    requires boxes.Valid() && |d| == 8 && offset < 8
    ensures |out| == |input|
    decreases |input|
  {
    if input == [] then []
    else
      var ti' := if offset == 0 then DoCryptoSpec(boxes, ti, K_ENCRYPT) else ti;
      var d' := if offset == 0 then Octets(ti') else d;
      [XorOctet(input[0], d'[offset])] + Munge(boxes, ti', d', (offset + 1) % 8, input[1..])
  }

  function Cryptogram(boxes: Boxes, input: seq<Octet>): (out: seq<Octet>)
    requires boxes.Valid()
    ensures |out| == |input|
  {
    Munge(boxes, (0, 0), Octets((0, 0)), 0, input)
  }

  lemma {:induction false} MungeTwice(boxes: Boxes, ti: Block, d: seq<Octet>, offset: nat, input: seq<Octet>)
    requires boxes.Valid() && |d| == 8 && offset < 8
    ensures Munge(boxes, ti, d, offset, Munge(boxes, ti, d, offset, input)) == input
    decreases |input|
  {
    hide XorOctet, DoCryptoSpec, Octets;
    if input != [] {
      var ti' := if offset == 0 then DoCryptoSpec(boxes, ti, K_ENCRYPT) else ti;
      var d' := if offset == 0 then Octets(ti') else d;
      var rest := Munge(boxes, ti', d', (offset + 1) % 8, input[1..]);
      var out := Munge(boxes, ti, d, offset, input);
      assert out[0] == XorOctet(input[0], d'[offset]) && out[1..] == rest;
      MungeTwice(boxes, ti', d', (offset + 1) % 8, input[1..]);
      XorOctetTwice(input[0], d'[offset]);
      assert input == [input[0]] + input[1..];
    }
  }

  /** Encryption is its own inverse: `Decrypt` runs the same keystream. */
  lemma CryptogramTwice(boxes: Boxes, input: seq<Octet>)
    requires boxes.Valid()
    ensures Cryptogram(boxes, Cryptogram(boxes, input)) == input
  {
    MungeTwice(boxes, (0, 0), Octets((0, 0)), 0, input);
  }

  lemma {:induction false} MungePrefix(
    boxes: Boxes, ti: Block, d: seq<Octet>, offset: nat, input: seq<Octet>, k: nat)
    requires boxes.Valid() && |d| == 8 && offset < 8 && k <= |input|
    ensures Munge(boxes, ti, d, offset, input[..k]) == Munge(boxes, ti, d, offset, input)[..k]
    decreases k
  {
    hide XorOctet, DoCryptoSpec, Octets;
    if k > 0 {
      var ti' := if offset == 0 then DoCryptoSpec(boxes, ti, K_ENCRYPT) else ti;
      var d' := if offset == 0 then Octets(ti') else d;
      MungePrefix(boxes, ti', d', (offset + 1) % 8, input[1..], k - 1);
      assert input[..k][1..] == input[1..][..k - 1];
    }
  }

  /** The encryption of a prefix is the prefix of the encryption. */
  lemma CryptogramPrefix(boxes: Boxes, input: seq<Octet>, k: nat)
    requires boxes.Valid() && k <= |input|
    ensures Cryptogram(boxes, input[..k]) == Cryptogram(boxes, input)[..k]
  {
    MungePrefix(boxes, (0, 0), Octets((0, 0)), 0, input, k);
  }

  /** The n-th output block of the feedback, starting from `ti`. */
  function Feedback(boxes: Boxes, ti: Block, n: nat): Block
    requires boxes.Valid()
    decreases n
  {
    if n == 0 then ti else Feedback(boxes, DoCryptoSpec(boxes, ti, K_ENCRYPT), n - 1)
  }

  /** How many times the block cipher has run when octet `i` of a run begun at `offset` is reached. */
  function Iterations(offset: nat, i: nat): nat {
    if offset == 0 then i / 8 + 1 else (offset + i) / 8
  }

  lemma MungeStep(boxes: Boxes, ti: Block, offset: nat, input: seq<Octet>)
    requires boxes.Valid() && offset < 8 && input != []
    ensures
      var ti' := if offset == 0 then DoCryptoSpec(boxes, ti, K_ENCRYPT) else ti;
      Munge(boxes, ti, Octets(ti), offset, input)
      == [XorOctet(input[0], Octets(ti')[offset])] + Munge(boxes, ti', Octets(ti'), (offset + 1) % 8, input[1..])
  {
    hide XorOctet, DoCryptoSpec, Octets;
  }

  /** The block reached after `n` octets. */
  function Turned(boxes: Boxes, ti: Block, offset: nat, n: nat): Block
    requires boxes.Valid() && offset < 8
    decreases n
  {
    if n == 0 then ti
    else Turned(boxes, if offset == 0 then DoCryptoSpec(boxes, ti, K_ENCRYPT) else ti, (offset + 1) % 8, n - 1)
  }

  lemma TurnedStep(boxes: Boxes, ti: Block, offset: nat, n: nat)
    requires boxes.Valid() && offset < 8 && n > 0
    ensures
      var ti' := if offset == 0 then DoCryptoSpec(boxes, ti, K_ENCRYPT) else ti;
      Turned(boxes, ti, offset, n) == Turned(boxes, ti', (offset + 1) % 8, n - 1)
  {
    hide DoCryptoSpec;
  }

  lemma MungeEnd(boxes: Boxes, ti: Block, offset: nat, input: seq<Octet>)
    requires boxes.Valid() && offset < 8 && input == []
    ensures Munge(boxes, ti, Octets(ti), offset, input) == [] && Turned(boxes, ti, offset, 0) == ti
  {
  }

  /** The position in the block after `n` octets. */
  function Offset(begin: nat, n: nat): (o: nat)
    ensures o < 8
  {
    (begin + n) % 8
  }

  lemma OffsetStart(begin: nat)
    requires begin < 8
    ensures Offset(begin, 0) == begin
  {
  }

  lemma OffsetStep(begin: nat, n: nat)
    ensures Offset(begin, n + 1) == (Offset(begin, n) + 1) % 8
  {
  }

  /** One octet of the loop. */
  lemma OctetStep(boxes: Boxes, ti: Block, offset: nat, input: seq<Octet>, i: nat, out: seq<Octet>)
    requires boxes.Valid() && offset < 8 && i < |input|
    ensures
      var ti' := if offset == 0 then DoCryptoSpec(boxes, ti, K_ENCRYPT) else ti;
      var next := (offset + 1) % 8;
      && out + Munge(boxes, ti, Octets(ti), offset, input[i..])
         == (out + [XorOctet(input[i], Octets(ti')[offset])]) + Munge(boxes, ti', Octets(ti'), next, input[i + 1..])
      && Turned(boxes, ti, offset, |input| - i) == Turned(boxes, ti', next, |input| - (i + 1))
  {
    hide XorOctet, DoCryptoSpec, Octets, Munge, Turned;
    MungeStep(boxes, ti, offset, input[i..]);
    TurnedStep(boxes, ti, offset, |input| - i);
    assert input[i..][1..] == input[i + 1..];
  }

  /** Read from the start of a block, the block reached is the input's last one fed back. */
  lemma {:induction false} TurnedIsFeedback(boxes: Boxes, ti: Block, blocks: nat)
    requires boxes.Valid()
    ensures Turned(boxes, ti, 0, 8 * blocks) == Feedback(boxes, ti, blocks)
    decreases blocks
  {
    if blocks > 0 {
      hide DoCryptoSpec;
      var ti' := DoCryptoSpec(boxes, ti, K_ENCRYPT);
      TurnedStep(boxes, ti, 0, 8 * blocks);
      WithinBlock(boxes, ti', 8 * blocks - 1);
      TurnedIsFeedback(boxes, ti', blocks - 1);
    }
  }

  lemma WithinBlock(boxes: Boxes, ti: Block, n: nat)
    requires boxes.Valid() && n >= 7
    ensures Turned(boxes, ti, 1, n) == Turned(boxes, ti, 0, n - 7)
  {
    hide DoCryptoSpec, Turned;
    TurnedStep(boxes, ti, 1, n);
    TurnedStep(boxes, ti, 2, n - 1);
    TurnedStep(boxes, ti, 3, n - 2);
    TurnedStep(boxes, ti, 4, n - 3);
    TurnedStep(boxes, ti, 5, n - 4);
    TurnedStep(boxes, ti, 6, n - 5);
    TurnedStep(boxes, ti, 7, n - 6);
  }

  lemma {:induction false} MungeAt(boxes: Boxes, ti: Block, offset: nat, input: seq<Octet>, i: nat)
    requires boxes.Valid() && offset < 8 && i < |input|
    ensures Munge(boxes, ti, Octets(ti), offset, input)[i]
         == XorOctet(input[i], Octets(Feedback(boxes, ti, Iterations(offset, i)))[(offset + i) % 8])
    decreases i
  {
    hide XorOctet, DoCryptoSpec, Octets, Munge, Feedback, Iterations;
    var ti' := if offset == 0 then DoCryptoSpec(boxes, ti, K_ENCRYPT) else ti;
    MungeStep(boxes, ti, offset, input);
    FeedbackStep(boxes, ti, offset, i);
    if i > 0 {
      NextOffset(offset, i);
      MungeAt(boxes, ti', (offset + 1) % 8, input[1..], i - 1);
      MungeTail(input, i, XorOctet(input[0], Octets(ti')[offset]),
                Munge(boxes, ti', Octets(ti'), (offset + 1) % 8, input[1..]));
    }
  }

  lemma NextOffset(offset: nat, i: nat)
    requires i > 0
    ensures ((offset + 1) % 8 + (i - 1)) % 8 == (offset + i) % 8
  {
  }

  lemma MungeTail(input: seq<Octet>, i: nat, octet: Octet, rest: seq<Octet>)
    requires 0 < i < |input| && |rest| == |input| - 1
    ensures ([octet] + rest)[i] == rest[i - 1] && input[1..][i - 1] == input[i]
  {
  }

  lemma FeedbackStep(boxes: Boxes, ti: Block, offset: nat, i: nat)
    requires boxes.Valid() && offset < 8
    ensures
      var ti' := if offset == 0 then DoCryptoSpec(boxes, ti, K_ENCRYPT) else ti;
      Feedback(boxes, ti, Iterations(offset, i))
      == if i == 0 then ti' else Feedback(boxes, ti', Iterations((offset + 1) % 8, i - 1))
  {
    hide DoCryptoSpec;
    if i > 0 {
      assert Iterations((offset + 1) % 8, i - 1) == if offset == 0 then i / 8 else (offset + i) / 8;
    } else {
      var next := DoCryptoSpec(boxes, ti, K_ENCRYPT);
      assert offset == 0 ==> Feedback(boxes, next, 0) == next;
    }
  }

  /** Output feedback: octet i is the plain octet xor octet i mod 8 of the (i/8 + 1)-th iterate of the
    * block cipher on the zero block. */
  lemma CryptogramIsOutputFeedback(boxes: Boxes, input: seq<Octet>, i: nat)
    requires boxes.Valid() && i < |input|
    ensures Cryptogram(boxes, input)[i] == XorOctet(input[i], Octets(Feedback(boxes, (0, 0), i / 8 + 1))[i % 8])
  {
    hide XorOctet, DoCryptoSpec, Octets, Munge, Feedback;
    MungeAt(boxes, (0, 0), 0, input, i);
  }

  lemma {:induction false} FeedbackLast(boxes: Boxes, ti: Block, n: nat)
    requires boxes.Valid()
    ensures Feedback(boxes, ti, n + 1) == DoCryptoSpec(boxes, Feedback(boxes, ti, n), K_ENCRYPT)
    decreases n
  {
    hide DoCryptoSpec;
    var next := DoCryptoSpec(boxes, ti, K_ENCRYPT);
    if n == 0 {
      assert Feedback(boxes, next, 0) == next;
    } else {
      FeedbackLast(boxes, next, n - 1);
    }
  }

  /** The key stream feeds Blowfish decryption back: each block is the published encryption of the next. */
  lemma KeyStreamIsDecryption(boxes: Boxes, ti: Block, n: nat)
    requires boxes.Valid()
    ensures Published(boxes.s, boxes.p, Feedback(boxes, ti, n + 1)) == Feedback(boxes, ti, n)
  {
    hide Published, DoCryptoSpec, Feedback;
    FeedbackLast(boxes, ti, n);
    BlockCipherIsBlowfish(boxes, Feedback(boxes, ti, n), K_ENCRYPT);
  }

  // ---------------------------------------------------------------------------
  // The key schedule
  // ---------------------------------------------------------------------------

  /** At most 72 octets of the key are used. */
  function UsedKey(key: seq<Octet>): (k: seq<Octet>)
    ensures key != [] ==> k != []
  {
    if |key| > KEY_WORDS * 4 then key[..KEY_WORDS * 4] else key
  }

  function Concat(b0: Octet, b1: Octet, b2: Octet, b3: Octet): Word {
    (b0 as Word << 24) | (b1 as Word << 16) | (b2 as Word << 8) | (b3 as Word)
  }

  function Wrap(a: nat, n: nat): (r: nat)
    requires n > 0
    ensures r < n
  {
    a % n
  }

  /** The i-th word of the key repeated for ever. */
  function KeyWord(key: seq<Octet>, i: nat): Word
    requires key != []
  {
    var n := |key|;
    Concat(key[Wrap(4 * i, n)], key[Wrap(4 * i + 1, n)], key[Wrap(4 * i + 2, n)], key[Wrap(4 * i + 3, n)])
  }

  function KeyedP(p: seq<Word>, key: seq<Octet>): (r: seq<Word>)
    requires key != []
    ensures |r| == |p|
  {
    seq(|p|, i requires 0 <= i < |p| => Xor(p[i], KeyWord(key, i)))
  }

  /** Replace the key words from the i-th on by successive encryptions under the boxes as they stand. */
  function FillP(boxes: Boxes, block: Block, i: nat): (r: (Boxes, Block))
    requires boxes.Valid() && i <= KEY_WORDS && i % 2 == 0
    ensures r.0.Valid()
    decreases KEY_WORDS - i
  {
    if i == KEY_WORDS then (boxes, block)
    else
      var b := DoCryptoSpec(boxes, block, K_ENCRYPT);
      FillP(boxes.(p := boxes.p[i := b.0][i + 1 := b.1]), b, i + 2)
  }

  function FillS(boxes: Boxes, block: Block, i: nat): (r: (Boxes, Block))
    requires boxes.Valid() && i <= SUBSTITUTIONS && i % 2 == 0
    ensures r.0.Valid()
    decreases SUBSTITUTIONS - i
  {
    if i == SUBSTITUTIONS then (boxes, block)
    else
      var b := DoCryptoSpec(boxes, block, K_ENCRYPT);
      FillS(boxes.(s := boxes.s[i := b.0][i + 1 := b.1]), b, i + 2)
  }

  function Schedule(boxes: Boxes, key: seq<Octet>): (r: Boxes)
    requires boxes.Valid() && key != []
    ensures r.Valid()
  {
    var (b, block) := FillP(boxes.(p := KeyedP(boxes.p, UsedKey(key))), (0, 0), 0);
    FillS(b, block, 0).0
  }

  // What the schedule is, word by word

  ghost predicate SubstitutionsChained(r: seq<Word>, p: seq<Word>, init: seq<Word>, first: Block, from: nat)
    requires |r| == SUBSTITUTIONS == |init| && |p| == KEY_WORDS
  {
    forall k | from <= k < SUBSTITUTIONS && k % 2 == 0 :: SubstitutionAt(r, p, init, first, from, k)
  }

  /** Words k and k + 1 are the encryption of the two before them, or of `first`, under the words that stood
    * in the table at that moment: new ones up to k, initial ones from there. */
  ghost predicate SubstitutionAt(r: seq<Word>, p: seq<Word>, init: seq<Word>, first: Block, from: nat, k: nat)
    requires |r| == SUBSTITUTIONS == |init| && |p| == KEY_WORDS && k + 1 < SUBSTITUTIONS
  {
    var before := if k < from + 2 then first else (r[k - 2], r[k - 1]);
    (r[k], r[k + 1]) == DoCryptoSpec(Boxes(p, r[..k] + init[k..]), before, 0)
  }

  lemma {:induction false} FillSChains(boxes: Boxes, block: Block, i: nat)
    requires boxes.Valid() && i <= SUBSTITUTIONS && i % 2 == 0
    ensures
      var r := FillS(boxes, block, i).0;
      r.p == boxes.p && r.s[..i] == boxes.s[..i] && SubstitutionsChained(r.s, r.p, boxes.s, block, i)
    decreases SUBSTITUTIONS - i
  {
    hide DoCryptoSpec, SubstitutionAt;
    if i < SUBSTITUTIONS {
      var b := DoCryptoSpec(boxes, block, K_ENCRYPT);
      var next := boxes.(s := boxes.s[i := b.0][i + 1 := b.1]);
      var r := FillS(boxes, block, i).0;
      assert r == FillS(next, b, i + 2).0;
      hide FillS;
      FillSChains(next, b, i + 2);
      assert r.s[..i] == r.s[..i + 2][..i] == boxes.s[..i];
      FirstSubstitution(r, boxes, block, i);
      forall k | i + 2 <= k < SUBSTITUTIONS && k % 2 == 0
        ensures SubstitutionAt(r.s, r.p, boxes.s, block, i, k)
      {
        LaterSubstitution(r, boxes, block, i, k);
      }
    }
  }

  lemma FirstSubstitution(r: Boxes, boxes: Boxes, block: Block, i: nat)
    requires boxes.Valid() && r.Valid() && i + 1 < SUBSTITUTIONS && r.p == boxes.p
    requires
      var b := DoCryptoSpec(boxes, block, K_ENCRYPT);
      r.s[..i + 2] == boxes.s[i := b.0][i + 1 := b.1][..i + 2]
    ensures SubstitutionAt(r.s, r.p, boxes.s, block, i, i)
  {
    hide DoCryptoSpec;
    var b := DoCryptoSpec(boxes, block, K_ENCRYPT);
    assert r.s[i] == r.s[..i + 2][i] == b.0 && r.s[i + 1] == r.s[..i + 2][i + 1] == b.1;
    assert r.s[..i] == r.s[..i + 2][..i] == boxes.s[..i];
    assert r.s[..i] + boxes.s[i..] == boxes.s;
  }

  lemma LaterSubstitution(r: Boxes, boxes: Boxes, block: Block, i: nat, k: nat)
    requires boxes.Valid() && r.Valid() && i + 2 <= k < SUBSTITUTIONS - 1
    requires
      var b := DoCryptoSpec(boxes, block, K_ENCRYPT);
      && r.s[..i + 2] == boxes.s[i := b.0][i + 1 := b.1][..i + 2]
      && SubstitutionAt(r.s, r.p, boxes.s[i := b.0][i + 1 := b.1], b, i + 2, k)
    requires k % 2 == i % 2
    ensures SubstitutionAt(r.s, r.p, boxes.s, block, i, k)
  {
    hide DoCryptoSpec;
    var b := DoCryptoSpec(boxes, block, K_ENCRYPT);
    assert r.s[i] == r.s[..i + 2][i] == b.0 && r.s[i + 1] == r.s[..i + 2][i + 1] == b.1;
    assert boxes.s[i := b.0][i + 1 := b.1][k..] == boxes.s[k..];
  }

  ghost predicate KeyWordsChained(r: seq<Word>, keyed: seq<Word>, s: seq<Word>, first: Block, from: nat)
    requires |r| == KEY_WORDS == |keyed| && |s| == SUBSTITUTIONS
  {
    forall k | from <= k < KEY_WORDS && k % 2 == 0 :: KeyWordAt(r, keyed, s, first, from, k)
  }

  /** The same for key words k and k + 1. */
  ghost predicate KeyWordAt(r: seq<Word>, keyed: seq<Word>, s: seq<Word>, first: Block, from: nat, k: nat)
    requires |r| == KEY_WORDS == |keyed| && |s| == SUBSTITUTIONS && k + 1 < KEY_WORDS
  {
    var before := if k < from + 2 then first else (r[k - 2], r[k - 1]);
    (r[k], r[k + 1]) == DoCryptoSpec(Boxes(r[..k] + keyed[k..], s), before, 0)
  }

  lemma {:induction false} FillPChains(boxes: Boxes, block: Block, i: nat)
    requires boxes.Valid() && i <= KEY_WORDS && i % 2 == 0
    ensures
      var (r, last) := FillP(boxes, block, i);
      && r.s == boxes.s && r.p[..i] == boxes.p[..i] && KeyWordsChained(r.p, boxes.p, r.s, block, i)
      && last == (if i == KEY_WORDS then block else (r.p[16], r.p[17]))
    decreases KEY_WORDS - i
  {
    hide DoCryptoSpec, KeyWordAt;
    if i < KEY_WORDS {
      var b := DoCryptoSpec(boxes, block, K_ENCRYPT);
      var next := boxes.(p := boxes.p[i := b.0][i + 1 := b.1]);
      var (r, last) := FillP(boxes, block, i);
      assert (r, last) == FillP(next, b, i + 2);
      hide FillP;
      FillPChains(next, b, i + 2);
      KeyWordsChain(r, boxes, block, i);
      FirstKeyWord(r, boxes, block, i);
    }
  }

  lemma KeyWordsChain(r: Boxes, boxes: Boxes, block: Block, i: nat)
    requires boxes.Valid() && r.Valid() && i < KEY_WORDS && i % 2 == 0 && r.s == boxes.s
    requires
      var b := DoCryptoSpec(boxes, block, K_ENCRYPT);
      var next := boxes.p[i := b.0][i + 1 := b.1];
      r.p[..i + 2] == next[..i + 2] && KeyWordsChained(r.p, next, r.s, b, i + 2)
    ensures r.p[..i] == boxes.p[..i] && KeyWordsChained(r.p, boxes.p, r.s, block, i)
  {
    hide DoCryptoSpec, KeyWordAt;
    assert r.p[..i] == r.p[..i + 2][..i] == boxes.p[..i];
    FirstKeyWord(r, boxes, block, i);
    forall k | i + 2 <= k < KEY_WORDS && k % 2 == 0
      ensures KeyWordAt(r.p, boxes.p, r.s, block, i, k)
    {
      LaterKeyWord(r, boxes, block, i, k);
    }
  }

  lemma FirstKeyWord(r: Boxes, boxes: Boxes, block: Block, i: nat)
    requires boxes.Valid() && r.Valid() && i + 1 < KEY_WORDS && r.s == boxes.s
    requires
      var b := DoCryptoSpec(boxes, block, K_ENCRYPT);
      r.p[..i + 2] == boxes.p[i := b.0][i + 1 := b.1][..i + 2]
    ensures KeyWordAt(r.p, boxes.p, r.s, block, i, i)
    ensures (r.p[i], r.p[i + 1]) == DoCryptoSpec(boxes, block, K_ENCRYPT)
  {
    hide DoCryptoSpec;
    var b := DoCryptoSpec(boxes, block, K_ENCRYPT);
    assert r.p[i] == r.p[..i + 2][i] == b.0 && r.p[i + 1] == r.p[..i + 2][i + 1] == b.1;
    assert r.p[..i] == r.p[..i + 2][..i] == boxes.p[..i];
    assert r.p[..i] + boxes.p[i..] == boxes.p;
  }

  lemma LaterKeyWord(r: Boxes, boxes: Boxes, block: Block, i: nat, k: nat)
    requires boxes.Valid() && r.Valid() && i + 2 <= k < KEY_WORDS - 1
    requires
      var b := DoCryptoSpec(boxes, block, K_ENCRYPT);
      && r.p[..i + 2] == boxes.p[i := b.0][i + 1 := b.1][..i + 2]
      && KeyWordAt(r.p, boxes.p[i := b.0][i + 1 := b.1], r.s, b, i + 2, k)
    requires k % 2 == i % 2
    ensures KeyWordAt(r.p, boxes.p, r.s, block, i, k)
  {
    hide DoCryptoSpec;
    var b := DoCryptoSpec(boxes, block, K_ENCRYPT);
    assert r.p[i] == r.p[..i + 2][i] == b.0 && r.p[i + 1] == r.p[..i + 2][i + 1] == b.1;
    assert boxes.p[i := b.0][i + 1 := b.1][k..] == boxes.p[k..];
  }

  /** Each word is the initial one xor four octets of the whole key, repeated for as long as it takes. */
  ghost predicate Keyed(keyed: seq<Word>, init: seq<Word>, key: seq<Octet>)
    requires key != []
  {
    && |keyed| == |init|
    && forall i | 0 <= i < |init| :: KeyedAt(keyed[i], init[i], key, 4 * i)
  }

  ghost predicate KeyedAt(keyed: Word, init: Word, key: seq<Octet>, a: nat)
    requires key != []
  {
    WordOctets(Xor(keyed, init)) == KeyOctets(key, a)
  }

  /** Four octets of the repeated key, from position `a`. */
  function KeyOctets(key: seq<Octet>, a: nat): seq<Octet>
    requires key != []
  {
    [key[a % |key|], key[(a + 1) % |key|], key[(a + 2) % |key|], key[(a + 3) % |key|]]
  }

  lemma OctetsOfConcat(b0: Octet, b1: Octet, b2: Octet, b3: Octet)
    ensures WordOctets(Concat(b0, b1, b2, b3)) == [b0, b1, b2, b3]
  {
  }

  /** Cutting the key to 72 octets changes nothing: no word reaches further. */
  lemma CutIsInvisible(key: seq<Octet>, a: nat)
    requires key != [] && a < KEY_WORDS * 4
    ensures UsedKey(key)[Wrap(a, |UsedKey(key)|)] == key[a % |key|]
  {
    if |key| > KEY_WORDS * 4 {
      var n := |UsedKey(key)|;
      ModUnique(a, 0, n, a);
      ModUnique(a, 0, |key|, a);
      assert Wrap(a, n) == a;
    }
  }

  lemma KeyedPIsKeyed(p: seq<Word>, key: seq<Octet>)
    requires key != [] && |p| == KEY_WORDS
    ensures Keyed(KeyedP(p, UsedKey(key)), p, key)
  {
    hide WordOctets, Xor, UsedKey, KeyWord, KeyOctets;
    var used := UsedKey(key);
    var keyed := KeyedP(p, used);
    forall i | 0 <= i < |p|
      ensures KeyedAt(keyed[i], p[i], key, 4 * i)
    {
      KeyWordOctets(key, i);
      XorBack(p[i], KeyWord(used, i));
      assert keyed[i] == Xor(p[i], KeyWord(used, i));
    }
  }

  lemma XorBack(a: Word, b: Word)
    ensures Xor(Xor(a, b), a) == b
  {
  }

  lemma KeyWordOctets(key: seq<Octet>, i: nat)
    requires key != [] && i < KEY_WORDS
    ensures WordOctets(KeyWord(UsedKey(key), i)) == KeyOctets(key, 4 * i)
  {
    hide Concat, WordOctets, UsedKey, Wrap;
    CutIsInvisible(key, 4 * i);
    CutIsInvisible(key, 4 * i + 1);
    CutIsInvisible(key, 4 * i + 2);
    CutIsInvisible(key, 4 * i + 3);
    var octets := KeyOctets(key, 4 * i);
    OctetsOfConcat(octets[0], octets[1], octets[2], octets[3]);
  }

  /** The scheduled tables: from the zero block on, each pair of key words and then each pair of substitutions
    * is the encryption of the pair before it under the tables as they stood, with the key mixed in first. */
  ghost predicate Scheduled(r: Boxes, init: Boxes, key: seq<Octet>)
    requires r.Valid() && init.Valid() && key != []
  {
    exists keyed: seq<Word> | Keyed(keyed, init.p, key) ::
      && KeyWordsChained(r.p, keyed, init.s, (0, 0), 0)
      && SubstitutionsChained(r.s, r.p, init.s, (r.p[16], r.p[17]), 0)
  }

  lemma ScheduleIsScheduled(init: Boxes, key: seq<Octet>)
    requires init.Valid() && key != []
    ensures Scheduled(Schedule(init, key), init, key)
  {
    hide KeyedP, Keyed, FillP, FillS, KeyWordsChained, SubstitutionsChained;
    var keyed := KeyedP(init.p, UsedKey(key));
    KeyedPIsKeyed(init.p, key);
    FillPChains(init.(p := keyed), (0, 0), 0);
    var (b, block) := FillP(init.(p := keyed), (0, 0), 0);
    FillSChains(b, block, 0);
  }

  lemma ConcatOfOctets(w: Word)
    ensures var d := WordOctets(w); Concat(d[0], d[1], d[2], d[3]) == w
  {
  }

  lemma KeyedIsUnique(a: seq<Word>, b: seq<Word>, init: seq<Word>, key: seq<Octet>)
    requires key != [] && Keyed(a, init, key) && Keyed(b, init, key)
    ensures a == b
  {
    hide WordOctets, Concat, Xor, KeyOctets;
    forall i | 0 <= i < |init|
      ensures a[i] == b[i]
    {
      assert KeyedAt(a[i], init[i], key, 4 * i) && KeyedAt(b[i], init[i], key, 4 * i);
      ConcatOfOctets(Xor(a[i], init[i]));
      ConcatOfOctets(Xor(b[i], init[i]));
      XorTwice(a[i], init[i]);
      XorTwice(b[i], init[i]);
    }
  }

  lemma {:induction false} KeyWordsAreUnique(a: seq<Word>, b: seq<Word>, keyed: seq<Word>, s: seq<Word>, n: nat)
    requires |a| == |b| == |keyed| == KEY_WORDS && |s| == SUBSTITUTIONS && n <= KEY_WORDS && n % 2 == 0
    requires KeyWordsChained(a, keyed, s, (0, 0), 0) && KeyWordsChained(b, keyed, s, (0, 0), 0)
    ensures a[..n] == b[..n]
    decreases n
  {
    hide DoCryptoSpec;
    if n > 0 {
      var k := n - 2;
      KeyWordsAreUnique(a, b, keyed, s, k);
      assert KeyWordAt(a, keyed, s, (0, 0), 0, k) && KeyWordAt(b, keyed, s, (0, 0), 0, k);
      assert k > 0 ==> a[k - 2] == a[..k][k - 2] && a[k - 1] == a[..k][k - 1];
      assert k > 0 ==> b[k - 2] == b[..k][k - 2] && b[k - 1] == b[..k][k - 1];
      assert a[..n] == a[..k] + [a[k], a[k + 1]] && b[..n] == b[..k] + [b[k], b[k + 1]];
    }
  }

  lemma {:induction false} SubstitutionsAreUnique(
    a: seq<Word>, b: seq<Word>, p: seq<Word>, init: seq<Word>, first: Block, n: nat)
    requires |a| == |b| == |init| == SUBSTITUTIONS && |p| == KEY_WORDS && n <= SUBSTITUTIONS && n % 2 == 0
    requires SubstitutionsChained(a, p, init, first, 0) && SubstitutionsChained(b, p, init, first, 0)
    ensures a[..n] == b[..n]
    decreases n
  {
    hide DoCryptoSpec;
    if n > 0 {
      var k := n - 2;
      SubstitutionsAreUnique(a, b, p, init, first, k);
      assert SubstitutionAt(a, p, init, first, 0, k) && SubstitutionAt(b, p, init, first, 0, k);
      assert k > 0 ==> a[k - 2] == a[..k][k - 2] && a[k - 1] == a[..k][k - 1];
      assert k > 0 ==> b[k - 2] == b[..k][k - 2] && b[k - 1] == b[..k][k - 1];
      assert a[..n] == a[..k] + [a[k], a[k + 1]] && b[..n] == b[..k] + [b[k], b[k + 1]];
    }
  }

  /** No other tables are: the description leaves every word determined. */
  lemma ScheduledIsUnique(a: Boxes, b: Boxes, init: Boxes, key: seq<Octet>)
    requires a.Valid() && b.Valid() && init.Valid() && key != []
    requires Scheduled(a, init, key) && Scheduled(b, init, key)
    ensures a == b
  {
    hide KeyedAt, KeyWordsChained, SubstitutionsChained;
    var x: seq<Word> :|
      && Keyed(x, init.p, key) && KeyWordsChained(a.p, x, init.s, (0, 0), 0)
      && SubstitutionsChained(a.s, a.p, init.s, (a.p[16], a.p[17]), 0);
    var y: seq<Word> :|
      && Keyed(y, init.p, key) && KeyWordsChained(b.p, y, init.s, (0, 0), 0)
      && SubstitutionsChained(b.s, b.p, init.s, (b.p[16], b.p[17]), 0);
    KeyedIsUnique(x, y, init.p, key);
    KeyWordsAreUnique(a.p, b.p, x, init.s, KEY_WORDS);
    assert a.p[..KEY_WORDS] == a.p && b.p[..KEY_WORDS] == b.p;
    SubstitutionsAreUnique(a.s, b.s, a.p, init.s, (a.p[16], a.p[17]), SUBSTITUTIONS);
    assert a.s[..SUBSTITUTIONS] == a.s && b.s[..SUBSTITUTIONS] == b.s;
  }

  // ---------------------------------------------------------------------------
  // The cipher object
  // ---------------------------------------------------------------------------

  class Blowfish {
    const key: seq<Octet>
    const p: array<Word>
    const s: array<Word>
    var state: Word
    var stateOffset: nat
    var lastOperation: int

    ghost predicate Valid()
      reads this
    {
      p.Length == KEY_WORDS && s.Length == SUBSTITUTIONS && p != s && stateOffset < 8
    }

    ghost function Tables(): (b: Boxes)
      requires Valid()
      reads this, p, s
      ensures b.Valid()
    {
      Boxes(p[..], s[..])
    }

    constructor (key: seq<Octet>, init: Boxes)
      requires init.Valid()
      ensures Valid() && Tables() == init && this.key == key && fresh(p) && fresh(s)
    {
      this.key := key;
      p := new Word[KEY_WORDS](i requires 0 <= i < |init.p| => init.p[i]);
      s := new Word[SUBSTITUTIONS](i requires 0 <= i < |init.s| => init.s[i]);
      state, stateOffset, lastOperation := 0, 0, 2;
    }

    method DoCrypto(data: array<Word>, encrypt: int)
      requires Valid() && data.Length == 2 && data != p && data != s
      modifies data
      ensures (data[0], data[1]) == DoCryptoSpec(Tables(), (old(data[0]), old(data[1])), encrypt)
    {
      hide Feistel, Reverse, Xor;
      var l, r := data[0], data[1];
      if encrypt != 0 {
        l := Xor(l, p[0]);
        l, r := RunForward(l, r);
        r := Xor(r, p[ROUNDS + 1]);
      } else {
        l := Xor(l, p[ROUNDS + 1]);
        l, r := RunBackward(l, r);
        r := Xor(r, p[0]);
      }
      data[1] := l;
      data[0] := r;
    }

    /** The sixteen rounds, two at a time, key words 1 to 16. */
    method RunForward(l0: Word, r0: Word) returns (l: Word, r: Word)
      requires Valid()
      ensures (l, r) == Feistel(s[..], p[..][1..ROUNDS + 1], l0, r0)
    {
      hide Encode, Feistel;
      ghost var keys := p[..][1..ROUNDS + 1];
      l, r := l0, r0;
      assert keys[0..] == keys;
      var i := 0;
      while i < ROUNDS
        invariant 0 <= i <= ROUNDS && i % 2 == 0
        invariant Feistel(s[..], keys[i..], l, r) == Feistel(s[..], keys, l0, r0)
      {
        TwoRounds(s[..], keys, i, l, r);
        r := Encode(r, l, s[..], p[i + 1]);
        l := Encode(l, r, s[..], p[i + 2]);
        i := i + 2;
      }
      assert keys[ROUNDS..] == [];
      NoRounds(s[..], l, r);
    }

    /** The same with key words 16 to 1. */
    method RunBackward(l0: Word, r0: Word) returns (l: Word, r: Word)
      requires Valid()
      ensures (l, r) == Feistel(s[..], Reverse(p[..])[1..ROUNDS + 1], l0, r0)
    {
      hide Encode, Feistel, Reverse;
      ghost var keys := Reverse(p[..])[1..ROUNDS + 1];
      l, r := l0, r0;
      assert keys[0..] == keys;
      var i := 0;
      while i < ROUNDS
        invariant 0 <= i <= ROUNDS && i % 2 == 0
        invariant Feistel(s[..], keys[i..], l, r) == Feistel(s[..], keys, l0, r0)
      {
        TwoRounds(s[..], keys, i, l, r);
        assert keys[i] == p[ROUNDS - i] && keys[i + 1] == p[ROUNDS - i - 1];
        r := Encode(r, l, s[..], p[ROUNDS - i]);
        l := Encode(l, r, s[..], p[ROUNDS - i - 1]);
        i := i + 2;
      }
      assert keys[ROUNDS..] == [];
      NoRounds(s[..], l, r);
    }

    method ClearState()
      requires Valid()
      modifies this`state, this`stateOffset
      ensures Valid() && state == 0 && stateOffset == 0
    {
      stateOffset := 0;
      state := 0;
    }

    method SetKey()
      requires Valid() && key != []
      modifies this`state, this`stateOffset, p, s
      ensures Valid() && Tables() == Schedule(old(Tables()), key)
      ensures Scheduled(Tables(), old(Tables()), key)
      ensures state == 0 && stateOffset == 0
    {
      hide KeyedP, FillP, FillS, Scheduled;
      var used := UsedKey(key);
      MixKey(used);
      var block := new Word[2](_ => 0);
      FillKeyWords(block);
      FillSubstitutions(block);
      ClearState();
      ScheduleIsScheduled(old(Tables()), key);
    }

    /** The second loop: the key words from the chained encryption of a zero block. */
    method FillKeyWords(block: array<Word>)
      requires Valid() && block.Length == 2 && block != p && block != s
      modifies p, block
      ensures Valid() && (Tables(), (block[0], block[1])) == FillP(old(Tables()), (old(block[0]), old(block[1])), 0)
    {
      hide DoCryptoSpec;
      ghost var start, first := Tables(), (block[0], block[1]);
      var i := 0;
      while i < KEY_WORDS
        invariant 0 <= i <= KEY_WORDS && i % 2 == 0 && Valid()
        invariant FillP(Tables(), (block[0], block[1]), i) == FillP(start, first, 0)
      {
        ghost var before := Tables();
        DoCrypto(block, K_ENCRYPT);
        p[i] := block[0];
        p[i + 1] := block[1];
        assert Tables().p == before.p[i := block[0]][i + 1 := block[1]];
        i := i + 2;
      }
    }

    /** The third loop: the substitutions, the chain going on. */
    method FillSubstitutions(block: array<Word>)
      requires Valid() && block.Length == 2 && block != p && block != s
      modifies s, block
      ensures Valid() && (Tables(), (block[0], block[1])) == FillS(old(Tables()), (old(block[0]), old(block[1])), 0)
    {
      hide DoCryptoSpec;
      ghost var start, first := Tables(), (block[0], block[1]);
      var i := 0;
      while i < SUBSTITUTIONS
        invariant 0 <= i <= SUBSTITUTIONS && i % 2 == 0 && Valid()
        invariant FillS(Tables(), (block[0], block[1]), i) == FillS(start, first, 0)
      {
        ghost var before := Tables();
        DoCrypto(block, K_ENCRYPT);
        s[i] := block[0];
        s[i + 1] := block[1];
        assert Tables().s == before.s[i := block[0]][i + 1 := block[1]];
        i := i + 2;
      }
    }

    /** The first loop of SetKey: the key's octets, read round and round, xored into the key words. */
    method MixKey(used: seq<Octet>)
      requires Valid() && used != []
      modifies p
      ensures p[..] == KeyedP(old(p[..]), used)
    {
      hide Concat, KeyWord, Xor;
      var keyLen := |used|;
      var d := 0;
      for i := 0 to KEY_WORDS
        invariant d == Wrap(4 * i, keyLen)
        invariant forall j | 0 <= j < i :: p[j] == Xor(old(p[j]), KeyWord(used, j))
        invariant forall j | i <= j < KEY_WORDS :: p[j] == old(p[j])
      {
        var word;
        word, d := NextWord(used, d, i);
        p[i] := Xor(p[i], word);
      }
    }

    static method NextWord(used: seq<Octet>, d0: nat, ghost i: nat) returns (word: Word, d: nat)
      requires used != [] && d0 == Wrap(4 * i, |used|)
      ensures word == KeyWord(used, i) && d == Wrap(4 * i + 4, |used|)
    {
      hide Concat, Wrap;
      var keyLen := |used|;
      NextIndex(4 * i, keyLen);
      NextIndex(4 * i + 1, keyLen);
      NextIndex(4 * i + 2, keyLen);
      NextIndex(4 * i + 3, keyLen);
      d := d0;
      var b0 := used[d];
      d := Wrap(d + 1, keyLen);
      var b1 := used[d];
      d := Wrap(d + 1, keyLen);
      var b2 := used[d];
      d := Wrap(d + 1, keyLen);
      var b3 := used[d];
      d := Wrap(d + 1, keyLen);
      word := Concat(b0, b1, b2, b3);
    }

    /** The input combined with the key stream from the block the state stands for; afterwards the state is
      * the first word of the block reached, which is all that is kept of it. */
    method MungeData(inBuffer: seq<Octet>) returns (outBuffer: seq<Octet>)
      requires Valid()
      modifies this`state, this`stateOffset
      ensures Valid()
      ensures outBuffer == Munge(Tables(), (old(state), 0), Octets((old(state), 0)), old(stateOffset), inBuffer)
      ensures state == Turned(Tables(), (old(state), 0), old(stateOffset), |inBuffer|).0
      ensures stateOffset == Offset(old(stateOffset), |inBuffer|)
    {
      hide XorOctet, DoCryptoSpec, Octets, Munge, Turned, Offset;
      ghost var boxes, start, begin := Tables(), (state, 0 as Word), stateOffset;
      var curStateOffset: nat := stateOffset;
      var word := state;
      var ti := new Word[2](i => if i == 0 then word else 0);
      var d := Octets((ti[0], ti[1]));
      var save := false;
      outBuffer := [];
      ghost var all := Munge(boxes, start, Octets(start), stateOffset, inBuffer);
      assert inBuffer[0..] == inBuffer;
      assert curStateOffset == Offset(begin, 0) by {
        OffsetStart(begin);
      }
      for i := 0 to |inBuffer|
        invariant Valid() && Tables() == boxes && fresh(ti) && ti.Length == 2 && state == start.0
        invariant curStateOffset == Offset(begin, i) && d == Octets((ti[0], ti[1])) && (!save ==> ti[0] == state)
        invariant all == outBuffer + Munge(boxes, (ti[0], ti[1]), d, curStateOffset, inBuffer[i..])
        invariant
          Turned(boxes, (ti[0], ti[1]), curStateOffset, |inBuffer| - i) == Turned(boxes, start, begin, |inBuffer|)
      {
        OctetStep(boxes, (ti[0], ti[1]), curStateOffset, inBuffer, i, outBuffer);
        OffsetStep(begin, i);
        if curStateOffset == 0 {
          DoCrypto(ti, K_ENCRYPT);
          d := Octets((ti[0], ti[1]));
          save := true;
        }
        var octet := XorOctet(inBuffer[i], d[curStateOffset]);
        curStateOffset := (curStateOffset + 1) % 8;
        outBuffer := outBuffer + [octet];
      }
      MungeEnd(boxes, (ti[0], ti[1]), curStateOffset, inBuffer[|inBuffer|..]);
      if save {
        state := ti[0];
      }
      stateOffset := curStateOffset;
    }

    /** Whatever calls came before, encryption depends on the tables and the input alone. */
    method Encrypt(inBuffer: seq<Octet>) returns (outBuffer: seq<Octet>)
      requires Valid()
      modifies this`state, this`stateOffset, this`lastOperation
      ensures Valid() && outBuffer == Cryptogram(Tables(), inBuffer)
    {
      ClearState();
      lastOperation := K_ENCRYPT;
      outBuffer := MungeData(inBuffer);
    }

    method Decrypt(inBuffer: seq<Octet>) returns (outBuffer: seq<Octet>)
      requires Valid()
      modifies this`state, this`stateOffset, this`lastOperation
      ensures Valid() && outBuffer == Cryptogram(Tables(), inBuffer)
      ensures forall plain | inBuffer == Cryptogram(Tables(), plain) :: outBuffer == plain
    {
      ClearState();
      lastOperation := K_DECRYPT;
      outBuffer := MungeData(inBuffer);
      forall plain | inBuffer == Cryptogram(Tables(), plain)
        ensures outBuffer == plain
      {
        CryptogramTwice(Tables(), plain);
      }
    }
  }

  /** Any history of calls, then a message encrypted and decrypted with the same key: the history leaves
    * no trace in the cryptogram, and the message comes back. */
  method EncryptAfterHistory(cipher: Blowfish, history: seq<(bool, seq<Octet>)>, message: seq<Octet>)
    returns (secret: seq<Octet>, plain: seq<Octet>)
    requires cipher.Valid()
    modifies cipher`state, cipher`stateOffset, cipher`lastOperation
    ensures cipher.Valid() && secret == Cryptogram(cipher.Tables(), message) && plain == message
    ensures cipher.Tables() == old(cipher.Tables())
  {
    for i := 0 to |history|
      invariant cipher.Valid()
    {
      if history[i].0 {
        var _ := cipher.Encrypt(history[i].1);
      } else {
        var _ := cipher.Decrypt(history[i].1);
      }
    }
    secret := cipher.Encrypt(message);
    plain := cipher.Decrypt(secret);
  }

  /** A cipher made and keyed, after any history of calls: what it makes of a message depends on the initial
    * tables, the key and the message alone, and the message comes back. */
  method KeyedAfterHistory(init: Boxes, key: seq<Octet>, history: seq<(bool, seq<Octet>)>, message: seq<Octet>)
    returns (secret: seq<Octet>, plain: seq<Octet>)
    requires init.Valid() && key != []
    ensures secret == Cryptogram(Schedule(init, key), message) && plain == message
  {
    hide Schedule, Cryptogram;
    var cipher := new Blowfish(key, init);
    cipher.SetKey();
    secret, plain := EncryptAfterHistory(cipher, history, message);
  }

  /** Keying mixes the key into whatever the tables hold: after a second call they are the schedule of the
    * schedule. */
  method KeyedTwice(init: Boxes, key: seq<Octet>, message: seq<Octet>) returns (secret: seq<Octet>)
    requires init.Valid() && key != []
    ensures secret == Cryptogram(Schedule(Schedule(init, key), key), message)
  {
    hide Schedule, Cryptogram;
    var cipher := new Blowfish(key, init);
    cipher.SetKey();
    cipher.SetKey();
    secret := cipher.Encrypt(message);
  }

  lemma TwoRounds(s: seq<Word>, middle: seq<Word>, i: nat, l: Word, r: Word)
    requires |s| == SUBSTITUTIONS && i + 1 < |middle|
    ensures
      var r' := Encode(r, l, s, middle[i]);
      Feistel(s, middle[i..], l, r) == Feistel(s, middle[i + 2..], Encode(l, r', s, middle[i + 1]), r')
  {
    hide Encode;
    var keys := middle[i..];
    assert keys[1..] == middle[i + 1..] && middle[i + 1..][1..] == middle[i + 2..];
  }

  lemma NoRounds(s: seq<Word>, x: Word, y: Word)
    requires |s| == SUBSTITUTIONS
    ensures Feistel(s, [], x, y) == (x, y)
  {
  }

  lemma NextIndex(a: nat, n: nat)
    requires n > 0
    ensures Wrap(Wrap(a, n) + 1, n) == Wrap(a + 1, n)
  {
    var q, r := a / n, a % n;
    if r + 1 == n {
      assert a + 1 == (q + 1) * n + 0;
      ModUnique(a + 1, q + 1, n, 0);
      ModUnique(n, 1, n, 0);
    } else {
      ModUnique(a + 1, q, n, r + 1);
      ModUnique(r + 1, 0, n, r + 1);
    }
  }

  lemma ModUnique(a: int, q: int, n: int, r: int)
    requires 0 <= r < n && a == q * n + r
    ensures a % n == r
  {
    var d := q - a / n;
    assert d * n == a % n - r;
    MultipleBound(d, n);
  }

  lemma MultipleBound(d: int, n: int)
    requires n > 0
    ensures d >= 1 ==> d * n >= n
    ensures d <= -1 ==> d * n <= -n
  {
  }
}
