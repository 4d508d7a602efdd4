// Electronic code book, cipher block chaining and cipher feedback over any block
// cipher (sections 6.1 to 6.3 of NIST SP 800-38A, feedback by whole blocks).

module ChainModes {
  import opened Gf256

  type Block = seq<bv8>
  type Permutation = Block -> Block

  datatype Mode = Ecb | Cbc | Cfb

  function XorBlock(a: Block, b: Block): (c: Block)
    ensures |c| == |a|
  {
    seq(|a|, i requires 0 <= i < |a| => if i < |b| then Add(a[i], b[i]) else a[i])
  }

  /** A block added in place, byte by byte. */
  lemma XorBlockInPlace(before: seq<bv8>, after: seq<bv8>, at: nat, source: seq<bv8>, from: nat, n: nat)
    requires |after| == |before| && at + n <= |before| && from + n <= |source|
    requires forall x | at <= x < at + n :: after[x] == Add(before[x], source[from + (x - at)])
    ensures after[at..at + n] == XorBlock(before[at..at + n], source[from..from + n])
  {
    hide Add;
  }

  /** The chain after the given ciphertext: its last block, or what the chain was. */
  function Last(chain: Block, c: seq<Block>): Block {
    if c == [] then chain else c[|c| - 1]
  }

  function ChainAfter(mode: Mode, chain: Block, c: seq<Block>): Block {
    if mode == Ecb then chain else Last(chain, c)
  }

  function EncryptStep(mode: Mode, enc: Permutation, chain: Block, x: Block): Block {
    match mode
    case Ecb => enc(x)
    case Cbc => enc(XorBlock(chain, x))
    case Cfb => XorBlock(enc(chain), x)
  }

  function DecryptStep(mode: Mode, enc: Permutation, dec: Permutation, chain: Block, c: Block): Block {
    match mode
    case Ecb => dec(c)
    case Cbc => XorBlock(dec(c), chain)
    case Cfb => XorBlock(enc(chain), c)
  }

  function Encrypt(mode: Mode, enc: Permutation, chain: Block, p: seq<Block>): (c: seq<Block>)
    ensures |c| == |p|
  {
    if p == [] then [] else
      var c := Encrypt(mode, enc, chain, p[..|p| - 1]);
      c + [EncryptStep(mode, enc, Last(chain, c), p[|p| - 1])]
  }

  function Decrypt(mode: Mode, enc: Permutation, dec: Permutation, chain: Block, c: seq<Block>): (p: seq<Block>)
    ensures |p| == |c|
  {
    if c == [] then [] else
      Decrypt(mode, enc, dec, chain, c[..|c| - 1])
      + [DecryptStep(mode, enc, dec, Last(chain, c[..|c| - 1]), c[|c| - 1])]
  }

  predicate Sized(n: nat, blocks: seq<Block>) {
    forall b :: b in blocks ==> |b| == n
  }

  ghost predicate KeepsSize(n: nat, f: Permutation) {
    forall b: Block :: |b| == n ==> |f(b)| == n
  }

  lemma EncryptSnoc(mode: Mode, enc: Permutation, chain: Block, p: seq<Block>, x: Block)
    ensures var c := Encrypt(mode, enc, chain, p);
            Encrypt(mode, enc, chain, p + [x]) == c + [EncryptStep(mode, enc, Last(chain, c), x)]
  {
    hide EncryptStep, Last;
    assert (p + [x])[..|p + [x]| - 1] == p;
  }

  lemma DecryptSnoc(mode: Mode, enc: Permutation, dec: Permutation, chain: Block, c: seq<Block>, x: Block)
    ensures Decrypt(mode, enc, dec, chain, c + [x]) ==
            Decrypt(mode, enc, dec, chain, c) + [DecryptStep(mode, enc, dec, Last(chain, c), x)]
  {
    hide DecryptStep, Last;
    assert (c + [x])[..|c + [x]| - 1] == c;
  }

  // ----- Deciphering undoes enciphering

  /** What the block cipher is given when it enciphers x. */
  function Fed(mode: Mode, chain: Block, x: Block): Block {
    if mode == Cbc then XorBlock(chain, x) else x
  }

  /** Every block the cipher is given in enciphering p comes back from deciphering. */
  predicate Survives(mode: Mode, enc: Permutation, dec: Permutation, chain: Block, p: seq<Block>) {
    mode == Cfb || p == [] ||
    var q := p[..|p| - 1];
    var x := Fed(mode, Last(chain, Encrypt(mode, enc, chain, q)), p[|p| - 1]);
    Survives(mode, enc, dec, chain, q) && dec(enc(x)) == x
  }

  /** The blocks given to the block cipher in enciphering p, in order. */
  function FedBlocks(mode: Mode, enc: Permutation, chain: Block, p: seq<Block>): (fed: seq<Block>)
    ensures |fed| == |p|
  {
    if p == [] then []
    else
      var q := p[..|p| - 1];
      FedBlocks(mode, enc, chain, q) + [Fed(mode, Last(chain, Encrypt(mode, enc, chain, q)), p[|p| - 1])]
  }

  /** Every block comes back through the cipher and its inverse. */
  predicate AllReturn(enc: Permutation, dec: Permutation, blocks: seq<Block>) {
    forall i :: 0 <= i < |blocks| ==> dec(enc(blocks[i])) == blocks[i]
  }

  lemma AllReturnSnoc(enc: Permutation, dec: Permutation, blocks: seq<Block>, x: Block)
    ensures AllReturn(enc, dec, blocks + [x]) <==> AllReturn(enc, dec, blocks) && dec(enc(x)) == x
  {
    var all := blocks + [x];
    assert all[|blocks|] == x;
    assert forall i :: 0 <= i < |blocks| ==> all[i] == blocks[i];
  }

  lemma {:induction false} SurvivesIsEveryBlock(mode: Mode, enc: Permutation, dec: Permutation, chain: Block,
                                                p: seq<Block>)
    requires mode != Cfb
    ensures Survives(mode, enc, dec, chain, p) <==> AllReturn(enc, dec, FedBlocks(mode, enc, chain, p))
  {
    hide Fed, Encrypt;
    if p != [] {
      var n := |p| - 1;
      SurvivesIsEveryBlock(mode, enc, dec, chain, p[..n]);
      AllReturnSnoc(enc, dec, FedBlocks(mode, enc, chain, p[..n]),
                    Fed(mode, Last(chain, Encrypt(mode, enc, chain, p[..n])), p[n]));
      hide AllReturn;
    }
  }

  lemma {:induction false} FedSized(mode: Mode, enc: Permutation, n: nat, chain: Block, p: seq<Block>)
    requires |chain| == n && Sized(n, p) && KeepsSize(n, enc)
    ensures Sized(n, FedBlocks(mode, enc, chain, p))
  {
    hide Encrypt;
    if p != [] {
      var q := p[..|p| - 1];
      FedSized(mode, enc, n, chain, q);
      EncryptSized(mode, enc, n, chain, q);
    }
  }

  lemma XorBlockTwice(a: Block, b: Block)
    requires |a| == |b|
    ensures XorBlock(XorBlock(a, b), b) == a && XorBlock(a, XorBlock(a, b)) == b && XorBlock(a, b) == XorBlock(b, a)
  {
    hide Add;
    forall i | 0 <= i < |a|
      ensures Add(Add(a[i], b[i]), b[i]) == a[i] && Add(a[i], Add(a[i], b[i])) == b[i] &&
              Add(a[i], b[i]) == Add(b[i], a[i])
    {
      AddTwice(a[i], b[i]);
      AddTwice(b[i], a[i]);
      AddCommutes(a[i], b[i]);
      AddCommutes(a[i], Add(b[i], a[i]));
    }
  }

  lemma StepRoundTrip(mode: Mode, enc: Permutation, dec: Permutation, n: nat, chain: Block, x: Block)
    requires |chain| == |x| == n && KeepsSize(n, enc) && KeepsSize(n, dec)
    ensures DecryptStep(mode, enc, dec, chain, EncryptStep(mode, enc, chain, x)) == x <==>
            mode == Cfb || dec(enc(Fed(mode, chain, x))) == Fed(mode, chain, x)
  {
    match mode
    case Ecb =>
    case Cbc =>
      var y := XorBlock(chain, x);
      XorBlockTwice(chain, x);
      XorBlockTwice(x, chain);
      XorBlockTwice(dec(enc(y)), chain);
    case Cfb =>
      XorBlockTwice(enc(chain), x);
  }

  lemma EncryptSized(mode: Mode, enc: Permutation, n: nat, chain: Block, p: seq<Block>)
    requires |chain| == n && Sized(n, p) && KeepsSize(n, enc)
    ensures Sized(n, Encrypt(mode, enc, chain, p))
    ensures |Last(chain, Encrypt(mode, enc, chain, p))| == n
  {
    if p != [] {
      EncryptSized(mode, enc, n, chain, p[..|p| - 1]);
    }
  }

  /** Cipher feedback always round-trips; the other modes do exactly when every block they
      give to the cipher survives it. */
  lemma {:induction false} RoundTrip(mode: Mode, enc: Permutation, dec: Permutation, n: nat, chain: Block,
                                     p: seq<Block>)
    requires |chain| == n && Sized(n, p) && KeepsSize(n, enc) && KeepsSize(n, dec)
    ensures Decrypt(mode, enc, dec, chain, Encrypt(mode, enc, chain, p)) == p <==> Survives(mode, enc, dec, chain, p)
  {
    hide EncryptStep, DecryptStep, Fed, Encrypt, Decrypt;
    if p == [] {
      EmptyRoundTrip(mode, enc, dec, chain);
    } else {
      var q, x := p[..|p| - 1], p[|p| - 1];
      var c := Encrypt(mode, enc, chain, q);
      RoundTrip(mode, enc, dec, n, chain, q);
      EncryptSized(mode, enc, n, chain, q);
      StepRoundTrip(mode, enc, dec, n, Last(chain, c), x);
      assert p == q + [x];
      var y := EncryptStep(mode, enc, Last(chain, c), x);
      EncryptSnoc(mode, enc, chain, q, x);
      DecryptSnoc(mode, enc, dec, chain, c, y);
      SnocEqual(Decrypt(mode, enc, dec, chain, c), DecryptStep(mode, enc, dec, Last(chain, c), y), q, x);
    }
  }

  lemma EmptyRoundTrip(mode: Mode, enc: Permutation, dec: Permutation, chain: Block)
    ensures Decrypt(mode, enc, dec, chain, Encrypt(mode, enc, chain, [])) == []
  {
  }

  lemma SnocEqual(a: seq<Block>, x: Block, b: seq<Block>, y: Block)
    ensures a + [x] == b + [y] <==> a == b && x == y
  {
    if a + [x] == b + [y] {
      assert a == (a + [x])[..|a|] && b == (b + [y])[..|b|];
      assert x == (a + [x])[|a|] && y == (b + [y])[|b|];
    }
  }

  // ----- Cutting the data into calls

  lemma CodeBookIgnoresChain(enc: Permutation, dec: Permutation, chain: Block, chain': Block, x: Block)
    ensures EncryptStep(Ecb, enc, chain, x) == EncryptStep(Ecb, enc, chain', x)
    ensures DecryptStep(Ecb, enc, dec, chain, x) == DecryptStep(Ecb, enc, dec, chain', x)
  {
  }

  lemma {:induction false} EncryptSplit(mode: Mode, enc: Permutation, chain: Block, p: seq<Block>, q: seq<Block>)
    ensures var c := Encrypt(mode, enc, chain, p);
            Encrypt(mode, enc, chain, p + q) == c + Encrypt(mode, enc, ChainAfter(mode, chain, c), q)
  {
    hide EncryptStep, Encrypt;
    if q == [] {
      assert p + q == p;
      EmptyRoundTrip(mode, enc, enc, ChainAfter(mode, chain, Encrypt(mode, enc, chain, p)));
    } else {
      var r, x := q[..|q| - 1], q[|q| - 1];
      var c := Encrypt(mode, enc, chain, p);
      var after := ChainAfter(mode, chain, c);
      var d := Encrypt(mode, enc, after, r);
      EncryptSplit(mode, enc, chain, p, r);
      EncryptSnoc(mode, enc, chain, p + r, x);
      EncryptSnoc(mode, enc, after, r, x);
      CodeBookIgnoresChain(enc, enc, Last(chain, c + d), Last(after, d), x);
      assert q == r + [x] && p + q == p + r + [x];
    }
  }

  lemma {:induction false} DecryptSplit(mode: Mode, enc: Permutation, dec: Permutation, chain: Block, c: seq<Block>,
                                        d: seq<Block>)
    ensures Decrypt(mode, enc, dec, chain, c + d) ==
            Decrypt(mode, enc, dec, chain, c) + Decrypt(mode, enc, dec, ChainAfter(mode, chain, c), d)
  {
    hide DecryptStep, Decrypt;
    if d == [] {
      assert c + d == c;
      EmptyRoundTrip(mode, enc, dec, ChainAfter(mode, chain, c));
    } else {
      var e, x := d[..|d| - 1], d[|d| - 1];
      var after := ChainAfter(mode, chain, c);
      DecryptSplit(mode, enc, dec, chain, c, e);
      DecryptSnoc(mode, enc, dec, chain, c + e, x);
      DecryptSnoc(mode, enc, dec, after, e, x);
      CodeBookIgnoresChain(enc, dec, Last(chain, c + e), Last(after, e), x);
      assert d == e + [x] && c + d == c + e + [x];
    }
  }

  function Flatten(calls: seq<seq<Block>>): seq<Block> {
    if calls == [] then [] else Flatten(calls[..|calls| - 1]) + calls[|calls| - 1]
  }

  /** The outputs of one enciphering call after another, the chain carried along. */
  function EncryptCalls(mode: Mode, enc: Permutation, chain: Block, calls: seq<seq<Block>>): seq<Block> {
    if calls == [] then [] else
      var c := EncryptCalls(mode, enc, chain, calls[..|calls| - 1]);
      c + Encrypt(mode, enc, ChainAfter(mode, chain, c), calls[|calls| - 1])
  }

  function DecryptCalls(mode: Mode, enc: Permutation, dec: Permutation, chain: Block,
                        calls: seq<seq<Block>>): seq<Block> {
    if calls == [] then [] else
      DecryptCalls(mode, enc, dec, chain, calls[..|calls| - 1])
      + Decrypt(mode, enc, dec, ChainAfter(mode, chain, Flatten(calls[..|calls| - 1])), calls[|calls| - 1])
  }

  lemma {:induction false} CallsAreOneCall(mode: Mode, enc: Permutation, dec: Permutation, chain: Block,
                                           calls: seq<seq<Block>>)
    ensures EncryptCalls(mode, enc, chain, calls) == Encrypt(mode, enc, chain, Flatten(calls))
    ensures DecryptCalls(mode, enc, dec, chain, calls) == Decrypt(mode, enc, dec, chain, Flatten(calls))
  {
    if calls != [] {
      var init := calls[..|calls| - 1];
      CallsAreOneCall(mode, enc, dec, chain, init);
      EncryptSplit(mode, enc, chain, Flatten(init), calls[|calls| - 1]);
      DecryptSplit(mode, enc, dec, chain, Flatten(init), calls[|calls| - 1]);
    }
  }

  // ----- The result written over the input

  /** Enciphering; with same the result overwrites the input. Cipher feedback then adds to the enciphered chain
      what it has just written there. */
  function EncryptInto(same: bool, mode: Mode, enc: Permutation, chain: Block, p: seq<Block>): (c: seq<Block>)
    ensures |c| == |p|
  {
    if p == [] then [] else
      var c := EncryptInto(same, mode, enc, chain, p[..|p| - 1]);
      c + [EncryptIntoStep(same, mode, enc, Last(chain, c), p[|p| - 1])]
  }

  function EncryptIntoStep(same: bool, mode: Mode, enc: Permutation, chain: Block, x: Block): Block {
    EncryptStep(mode, enc, chain, if same && mode == Cfb then enc(chain) else x)
  }

  /** Deciphering; with same the chain is taken from the input when the result is already there. */
  function DecryptInto(same: bool, mode: Mode, enc: Permutation, dec: Permutation, chain: Block,
                       c: seq<Block>): (p: seq<Block>)
    ensures |p| == |c|
  {
    if c == [] then [] else
      var b := c[..|c| - 1];
      var p := DecryptInto(same, mode, enc, dec, chain, b);
      p + [DecryptIntoStep(same, mode, enc, dec, Last(chain, if same then p else b), c[|c| - 1])]
  }

  function DecryptIntoStep(same: bool, mode: Mode, enc: Permutation, dec: Permutation, chain: Block, x: Block): Block {
    DecryptStep(mode, enc, dec, chain, if same && mode == Cfb then enc(chain) else x)
  }

  lemma {:induction false} EncryptIntoIs(same: bool, mode: Mode, enc: Permutation, chain: Block, p: seq<Block>)
    requires !same || mode != Cfb
    ensures EncryptInto(same, mode, enc, chain, p) == Encrypt(mode, enc, chain, p)
  {
    hide EncryptStep;
    if p != [] {
      EncryptIntoIs(same, mode, enc, chain, p[..|p| - 1]);
    }
  }

  lemma {:induction false} DecryptIntoIs(same: bool, mode: Mode, enc: Permutation, dec: Permutation, chain: Block,
                                         c: seq<Block>)
    requires !same || mode == Ecb
    ensures DecryptInto(same, mode, enc, dec, chain, c) == Decrypt(mode, enc, dec, chain, c)
  {
    if c != [] {
      DecryptIntoIs(same, mode, enc, dec, chain, c[..|c| - 1]);
    }
  }

  predicate AllZero(n: nat, blocks: seq<Block>) {
    forall i :: 0 <= i < |blocks| ==> blocks[i] == Zeros(n)
  }

  function Zeros(n: nat): (b: Block)
    ensures |b| == n
  {
    seq(n, i => 0)
  }

  lemma AllZeroSnoc(n: nat, blocks: seq<Block>, x: Block)
    ensures AllZero(n, blocks + [x]) <==> AllZero(n, blocks) && x == Zeros(n)
  {
    var all := blocks + [x];
    assert all[|blocks|] == x;
    assert forall i :: 0 <= i < |blocks| ==> all[i] == blocks[i];
  }

  lemma XorBlockSelf(a: Block)
    ensures XorBlock(a, a) == Zeros(|a|)
  {
    hide Add;
    forall i | 0 <= i < |a|
      ensures Add(a[i], a[i]) == 0
    {
      AddSelf(a[i]);
    }
  }

  /** Cipher feedback over its own input gives zeros, both ways. */
  lemma {:induction false} FeedbackIntoZeros(enc: Permutation, dec: Permutation, n: nat, chain: Block, p: seq<Block>)
    requires |chain| == n && KeepsSize(n, enc)
    ensures AllZero(n, EncryptInto(true, Cfb, enc, chain, p)) && AllZero(n, DecryptInto(true, Cfb, enc, dec, chain, p))
  {
    hide XorBlock, Zeros;
    if p != [] {
      var q := p[..|p| - 1];
      FeedbackIntoZeros(enc, dec, n, chain, q);
      var c, d := EncryptInto(true, Cfb, enc, chain, q), DecryptInto(true, Cfb, enc, dec, chain, q);
      ZerosLast(n, chain, c);
      ZerosLast(n, chain, d);
      XorBlockSelf(enc(Last(chain, c)));
      XorBlockSelf(enc(Last(chain, d)));
      AllZeroSnoc(n, c, Zeros(n));
      AllZeroSnoc(n, d, Zeros(n));
    }
  }

  lemma ZerosLast(n: nat, chain: Block, blocks: seq<Block>)
    requires |chain| == n && AllZero(n, blocks)
    ensures |Last(chain, blocks)| == n
  {
  }

  lemma AllZeroIsOne(n: nat, a: seq<Block>, b: seq<Block>)
    requires AllZero(n, a) && |a| == |b|
    ensures a == b <==> AllZero(n, b)
  {
    hide Zeros;
  }

  lemma XorBlockCancels(a: Block, b: Block, c: Block)
    requires |a| == |b| == |c|
    ensures XorBlock(a, b) == XorBlock(a, c) <==> b == c
  {
    XorBlockTwice(b, a);
    XorBlockTwice(c, a);
    XorBlockTwice(a, b);
    XorBlockTwice(a, c);
  }

  lemma LastTells(p: seq<Block>, b: seq<Block>)
    requires |p| == |b| > 0
    ensures p == b <==> p[..|p| - 1] == b[..|p| - 1] && p[|p| - 1] == b[|p| - 1]
  {
    var m := |p| - 1;
    assert p == p[..m] + [p[m]] && b == b[..m] + [b[m]];
  }

  /** One block d more: q is taken for the right p as long as p repeats the ciphertext b. */
  lemma NextIntoRight(n: nat, chain: Block, q: seq<Block>, p: seq<Block>, b: seq<Block>, d: Block)
    requires |q| == |p| == |b| && |chain| == |d| == n && Sized(n, p) && Sized(n, b)
    requires q == p <==> b == [] || p[..|b| - 1] == b[..|b| - 1]
    ensures q + [XorBlock(d, Last(chain, q))] == p + [XorBlock(d, Last(chain, b))] <==> p == b
  {
    hide XorBlock;
    SnocEqual(q, XorBlock(d, Last(chain, q)), p, XorBlock(d, Last(chain, b)));
    if b != [] {
      LastTells(p, b);
      if q == p {
        XorBlockCancels(d, p[|p| - 1], b[|b| - 1]);
      }
    }
  }

  /** Block chaining over its own input is right exactly when every block but the last deciphers to itself. */
  lemma {:induction false} ChainingIntoRight(enc: Permutation, dec: Permutation, n: nat, chain: Block, c: seq<Block>)
    requires |chain| == n && Sized(n, c) && KeepsSize(n, dec)
    ensures var p := Decrypt(Cbc, enc, dec, chain, c);
            Sized(n, p) &&
            (DecryptInto(true, Cbc, enc, dec, chain, c) == p <==> c == [] || p[..|c| - 1] == c[..|c| - 1])
  {
    hide XorBlock;
    if c != [] {
      var m := |c| - 1;
      var b, d := c[..m], dec(c[m]);
      ChainingIntoRight(enc, dec, n, chain, b);
      var p, q := Decrypt(Cbc, enc, dec, chain, b), DecryptInto(true, Cbc, enc, dec, chain, b);
      NextIntoRight(n, chain, q, p, b, d);
      var x := XorBlock(d, Last(chain, b));
      assert Decrypt(Cbc, enc, dec, chain, c) == p + [x];
      assert DecryptInto(true, Cbc, enc, dec, chain, c) == q + [XorBlock(d, Last(chain, q))];
      hide Decrypt, DecryptInto, Last;
      assert (p + [x])[..m] == p;
    }
  }

  // ----- Which input that is

  /** What stands before block i: the block before it, or the chain. */
  function Before(chain: Block, blocks: seq<Block>, i: nat): Block
    requires i <= |blocks|
  {
    if i == 0 then chain else blocks[i - 1]
  }

  lemma {:induction false} EncryptAt(mode: Mode, enc: Permutation, chain: Block, p: seq<Block>, i: nat)
    requires i < |p|
    ensures var c := Encrypt(mode, enc, chain, p); c[i] == EncryptStep(mode, enc, Before(chain, c, i), p[i])
  {
    hide EncryptStep;
    var m := |p| - 1;
    if i < m {
      EncryptAt(mode, enc, chain, p[..m], i);
    }
  }

  lemma {:induction false} DecryptAt(mode: Mode, enc: Permutation, dec: Permutation, chain: Block, c: seq<Block>,
                                     i: nat)
    requires i < |c|
    ensures Decrypt(mode, enc, dec, chain, c)[i] == DecryptStep(mode, enc, dec, Before(chain, c, i), c[i])
  {
    hide DecryptStep;
    var m := |c| - 1;
    if i < m {
      DecryptAt(mode, enc, dec, chain, c[..m], i);
    }
  }

  lemma XorBlockZero(a: Block, b: Block)
    requires |a| == |b|
    ensures XorBlock(a, b) == Zeros(|a|) <==> a == b
  {
    hide XorBlock, Zeros;
    XorBlockSelf(a);
    XorBlockCancels(a, b, a);
  }

  /** The message that cipher feedback enciphers to zeros. */
  predicate IsStreamOfZeros(enc: Permutation, n: nat, chain: Block, p: seq<Block>) {
    forall i :: 0 <= i < |p| ==> p[i] == enc(if i == 0 then chain else Zeros(n))
  }

  lemma ZerosAt(enc: Permutation, n: nat, chain: Block, p: seq<Block>, i: nat)
    requires |chain| == n && Sized(n, p) && KeepsSize(n, enc) && i < |p|
    ensures var c := Encrypt(Cfb, enc, chain, p);
            i == 0 || c[i - 1] == Zeros(n) ==>
              (c[i] == Zeros(n) <==> p[i] == enc(if i == 0 then chain else Zeros(n)))
  {
    hide XorBlock, Zeros, Encrypt;
    var c := Encrypt(Cfb, enc, chain, p);
    EncryptAt(Cfb, enc, chain, p, i);
    if i == 0 || c[i - 1] == Zeros(n) {
      XorBlockZero(enc(Before(chain, c, i)), p[i]);
    }
  }

  lemma ZerosFrom(enc: Permutation, n: nat, chain: Block, p: seq<Block>)
    requires |chain| == n && Sized(n, p) && KeepsSize(n, enc)
    ensures AllZero(n, Encrypt(Cfb, enc, chain, p)) <==> IsStreamOfZeros(enc, n, chain, p)
  {
    hide Zeros, Encrypt;
    var c := Encrypt(Cfb, enc, chain, p);
    if IsStreamOfZeros(enc, n, chain, p) {
      forall i | 0 <= i < |c|
        ensures ZerosFollow(n, c, i)
      {
        ZerosAt(enc, n, chain, p, i);
      }
      ZerosGoOn(n, c);
    }
    if AllZero(n, c) {
      forall i | 0 <= i < |p|
        ensures p[i] == enc(if i == 0 then chain else Zeros(n))
      {
        ZerosAt(enc, n, chain, p, i);
        assert c[i] == Zeros(n) && (i > 0 ==> c[i - 1] == Zeros(n));
      }
    }
  }

  /** Zeros, or nothing, before block i are followed by zeros. */
  predicate ZerosFollow(n: nat, c: seq<Block>, i: nat)
    requires i < |c|
  {
    i == 0 || c[i - 1] == Zeros(n) ==> c[i] == Zeros(n)
  }

  lemma {:induction false} ZerosGoOn(n: nat, c: seq<Block>)
    requires forall i :: 0 <= i < |c| ==> ZerosFollow(n, c, i)
    ensures AllZero(n, c)
  {
    hide Zeros;
    if c != [] {
      var m := |c| - 1;
      forall i | 0 <= i < m
        ensures ZerosFollow(n, c[..m], i)
      {
        assert ZerosFollow(n, c, i);
      }
      ZerosGoOn(n, c[..m]);
      assert ZerosFollow(n, c, m);
      assert m > 0 ==> c[..m][m - 1] == Zeros(n);
      AllZeroSnoc(n, c[..m], c[m]);
      assert c == c[..m] + [c[m]];
    }
  }

  /** Over its own input enciphering is right in ECB and CBC, and in CFB only of one message of each length. */
  lemma EncryptIntoRight(mode: Mode, enc: Permutation, n: nat, chain: Block, p: seq<Block>)
    requires |chain| == n && Sized(n, p) && KeepsSize(n, enc)
    ensures EncryptInto(true, mode, enc, chain, p) == Encrypt(mode, enc, chain, p) <==>
            mode != Cfb || IsStreamOfZeros(enc, n, chain, p)
  {
    hide Encrypt, EncryptInto, DecryptInto, AllZero, IsStreamOfZeros;
    if mode != Cfb {
      EncryptIntoIs(true, mode, enc, chain, p);
    } else {
      FeedbackIntoZeros(enc, enc, n, chain, p);
      AllZeroIsOne(n, EncryptInto(true, mode, enc, chain, p), Encrypt(mode, enc, chain, p));
      ZerosFrom(enc, n, chain, p);
    }
  }

  /** Whether over its own input deciphering c is right: in cipher feedback each block must be the one before it
      enciphered, in block chaining each but the last must be its own plaintext. */
  predicate SurvivesInto(mode: Mode, enc: Permutation, dec: Permutation, chain: Block, c: seq<Block>) {
    match mode
    case Ecb => true
    case Cbc => forall i :: 0 <= i < |c| - 1 ==> dec(c[i]) == XorBlock(c[i], Before(chain, c, i))
    case Cfb => forall i :: 0 <= i < |c| ==> c[i] == enc(Before(chain, c, i))
  }

  lemma XorBlockMoves(a: Block, b: Block, c: Block)
    requires |a| == |b| == |c|
    ensures XorBlock(a, b) == c <==> a == XorBlock(c, b)
  {
    hide XorBlock;
    XorBlockTwice(a, b);
    XorBlockTwice(c, b);
  }

  /** Over its own input deciphering is right in just those cases. */
  lemma DecryptIntoRight(mode: Mode, enc: Permutation, dec: Permutation, n: nat, chain: Block, c: seq<Block>)
    requires |chain| == n && Sized(n, c) && KeepsSize(n, enc) && KeepsSize(n, dec) && c != []
    ensures DecryptInto(true, mode, enc, dec, chain, c) == Decrypt(mode, enc, dec, chain, c) <==>
            SurvivesInto(mode, enc, dec, chain, c)
  {
    hide Decrypt, DecryptInto, XorBlock, Zeros, EncryptInto;
    var p := Decrypt(mode, enc, dec, chain, c);
    match mode
    case Ecb => DecryptIntoIs(true, mode, enc, dec, chain, c);
    case Cbc =>
      ChainingIntoRight(enc, dec, n, chain, c);
      forall i | 0 <= i < |c| - 1
        ensures p[i] == c[i] <==> dec(c[i]) == XorBlock(c[i], Before(chain, c, i))
      {
        DecryptAt(mode, enc, dec, chain, c, i);
        XorBlockMoves(dec(c[i]), Before(chain, c, i), c[i]);
      }
      FrontsEqual(p, c);
    case Cfb =>
      FeedbackIntoZeros(enc, dec, n, chain, c);
      AllZeroIsOne(n, DecryptInto(true, mode, enc, dec, chain, c), p);
      forall i | 0 <= i < |c|
        ensures p[i] == Zeros(n) <==> c[i] == enc(Before(chain, c, i))
      {
        DecryptAt(mode, enc, dec, chain, c, i);
        XorBlockZero(enc(Before(chain, c, i)), c[i]);
      }
  }

  lemma FrontsEqual(a: seq<Block>, b: seq<Block>)
    requires |a| == |b| > 0
    ensures a[..|a| - 1] == b[..|b| - 1] <==> forall i :: 0 <= i < |a| - 1 ==> a[i] == b[i]
  {
    if a[..|a| - 1] == b[..|b| - 1] {
      forall i | 0 <= i < |a| - 1
        ensures a[i] == b[i]
      {
        assert a[..|a| - 1][i] == b[..|b| - 1][i];
      }
    }
  }

  function Ones(n: nat): Block {
    seq(n, i => 1)
  }

  lemma ZerosAndOnes(n: nat)
    requires n > 0
    ensures |Zeros(n)| == |Ones(n)| == n && Zeros(n) != Ones(n)
  {
    assert Zeros(n)[0] == 0 && Ones(n)[0] == 1;
  }

  /** For every cipher and chain CFB over its own input loses some message of one block, in both directions. */
  lemma FeedbackIntoLoses(enc: Permutation, dec: Permutation, n: nat, chain: Block) returns (p: seq<Block>)
    requires |chain| == n > 0 && KeepsSize(n, enc) && KeepsSize(n, dec)
    ensures |p| == 1 && Sized(n, p)
    ensures EncryptInto(true, Cfb, enc, chain, p) != Encrypt(Cfb, enc, chain, p)
    ensures DecryptInto(true, Cfb, enc, dec, chain, p) != Decrypt(Cfb, enc, dec, chain, p)
  {
    hide Encrypt, Decrypt, EncryptInto, DecryptInto, Zeros, Ones;
    ZerosAndOnes(n);
    p := [if enc(chain) == Zeros(n) then Ones(n) else Zeros(n)];
    assert p[0] != enc(chain);
    EncryptIntoRight(Cfb, enc, n, chain, p);
    DecryptIntoRight(Cfb, enc, dec, n, chain, p);
  }

  /** For every cipher and chain deciphering in CBC over its own input loses some message of three blocks. */
  lemma ChainingIntoLoses(enc: Permutation, dec: Permutation, n: nat, chain: Block) returns (c: seq<Block>)
    requires |chain| == n > 0 && KeepsSize(n, enc) && KeepsSize(n, dec)
    ensures |c| == 3 && Sized(n, c)
    ensures DecryptInto(true, Cbc, enc, dec, chain, c) != Decrypt(Cbc, enc, dec, chain, c)
  {
    hide Decrypt, DecryptInto, Zeros, Ones, XorBlock;
    ZerosAndOnes(n);
    var a, b := Zeros(n), Ones(n);
    XorBlockCancels(a, a, b);
    c := if dec(a) == XorBlock(a, a) then [b, a, a] else [a, a, a];
    assert dec(c[1]) != XorBlock(c[1], Before(chain, c, 1));
    DecryptIntoRight(Cbc, enc, dec, n, chain, c);
  }

  // ----- Blocks in a byte buffer

  /** The bytes cut into blocks of n; only whole blocks at the end of b are kept. */
  function Cut(n: nat, b: seq<bv8>): (blocks: seq<Block>)
    requires n > 0
    ensures Sized(n, blocks)
  {
    if |b| < n then [] else Cut(n, b[..|b| - n]) + [b[|b| - n..]]
  }

  function Join(blocks: seq<Block>): seq<bv8> {
    if blocks == [] then [] else Join(blocks[..|blocks| - 1]) + blocks[|blocks| - 1]
  }

  lemma {:induction false} CutJoin(n: nat, blocks: seq<Block>)
    requires n > 0 && Sized(n, blocks)
    ensures Cut(n, Join(blocks)) == blocks
  {
    hide Cut, Join;
    if blocks == [] {
      CutEmpty(n);
    } else {
      var init, b := blocks[..|blocks| - 1], blocks[|blocks| - 1];
      CutJoin(n, init);
      CutSnoc(n, Join(init), b);
      JoinSnoc(init, b);
      assert blocks == init + [b];
    }
  }

  lemma CutEmpty(n: nat)
    requires n > 0
    ensures Cut(n, []) == [] && Join([]) == []
  {
  }

  lemma {:induction false} JoinLength(blocks: seq<Block>)
    requires Sized(16, blocks)
    ensures |Join(blocks)| == 16 * |blocks|
  {
    if blocks != [] {
      JoinLength(blocks[..|blocks| - 1]);
    }
  }

  lemma {:induction false} JoinCut(p: seq<bv8>)
    requires |p| % 16 == 0
    ensures Join(Cut(16, p)) == p && 16 * |Cut(16, p)| == |p|
  {
    hide Cut, Join;
    if p == [] {
      CutEmpty(16);
    } else {
      var q, x := p[..|p| - 16], p[|p| - 16..];
      JoinCut(q);
      CutSnoc(16, q, x);
      JoinSnoc(Cut(16, q), x);
      assert p == q + x;
    }
  }

  lemma CutSnoc(n: nat, p: seq<bv8>, x: Block)
    requires |x| == n > 0
    ensures Cut(n, p + x) == Cut(n, p) + [x]
  {
    assert (p + x)[..|p|] == p && (p + x)[|p|..] == x;
  }

  lemma JoinSnoc(blocks: seq<Block>, b: Block)
    ensures Join(blocks + [b]) == Join(blocks) + b
  {
    assert (blocks + [b])[..|blocks|] == blocks;
  }

  lemma EncryptIntoSnoc(same: bool, mode: Mode, enc: Permutation, chain: Block, p: seq<Block>, x: Block)
    ensures var c := EncryptInto(same, mode, enc, chain, p);
            EncryptInto(same, mode, enc, chain, p + [x]) == c + [EncryptIntoStep(same, mode, enc, Last(chain, c), x)]
  {
    hide EncryptIntoStep, Last;
    assert (p + [x])[..|p + [x]| - 1] == p;
  }

  lemma DecryptIntoSnoc(same: bool, mode: Mode, enc: Permutation, dec: Permutation, chain: Block, c: seq<Block>,
                        x: Block)
    ensures var p := DecryptInto(same, mode, enc, dec, chain, c);
            DecryptInto(same, mode, enc, dec, chain, c + [x]) ==
            p + [DecryptIntoStep(same, mode, enc, dec, Last(chain, if same then p else c), x)]
  {
    hide DecryptIntoStep, Last;
    assert (c + [x])[..|c + [x]| - 1] == c;
  }

  /** The bytes p are enciphered into the bytes out, from the chain iv to the chain now. */
  ghost predicate IsEnciphered(same: bool, mode: Mode, enc: Permutation, n: nat, iv: Block, p: seq<bv8>, out: seq<bv8>,
                               chain: Block)
    requires n > 0
  {
    var c := EncryptInto(same, mode, enc, iv, Cut(n, p));
    out == Join(c) && chain == ChainAfter(mode, iv, c)
  }

  /** The bytes c are deciphered into the bytes out. */
  ghost predicate IsDeciphered(same: bool, mode: Mode, enc: Permutation, dec: Permutation, n: nat, iv: Block,
                               c: seq<bv8>,
                               out: seq<bv8>, chain: Block)
    requires n > 0
  {
    var p := DecryptInto(same, mode, enc, dec, iv, Cut(n, c));
    out == Join(p) && chain == ChainAfter(mode, iv, if same then p else Cut(n, c))
  }

  /** One more block of plaintext x, in terms of bytes: its ciphertext y extends the output. */
  lemma EncryptExtends(same: bool, mode: Mode, enc: Permutation, n: nat, iv: Block, p: seq<bv8>, x: Block,
                       out: seq<bv8>,
                       chain: Block, y: Block)
    requires |x| == n > 0 && IsEnciphered(same, mode, enc, n, iv, p, out, chain)
    requires y == EncryptIntoStep(same, mode, enc, chain, x)
    ensures IsEnciphered(same, mode, enc, n, iv, p + x, out + y, if mode == Ecb then chain else y)
  {
    hide EncryptStep;
    var c := EncryptInto(same, mode, enc, iv, Cut(n, p));
    CutSnoc(n, p, x);
    EncryptIntoSnoc(same, mode, enc, iv, Cut(n, p), x);
    CodeBookIgnoresChain(enc, enc, chain, Last(iv, c), x);
    JoinSnoc(c, y);
  }

  /** One more block of ciphertext x; the chain is then its plaintext y when that has overwritten it. */
  lemma DecryptExtends(same: bool, mode: Mode, enc: Permutation, dec: Permutation, n: nat, iv: Block, c: seq<bv8>,
                       x: Block, out: seq<bv8>, chain: Block, y: Block)
    requires |x| == n > 0 && IsDeciphered(same, mode, enc, dec, n, iv, c, out, chain)
    requires y == DecryptIntoStep(same, mode, enc, dec, chain, x)
    ensures IsDeciphered(same, mode, enc, dec, n, iv, c + x, out + y, if mode == Ecb then chain else if same then y
                         else x)
  {
    hide DecryptStep;
    var p := DecryptInto(same, mode, enc, dec, iv, Cut(n, c));
    CutSnoc(n, c, x);
    DecryptIntoSnoc(same, mode, enc, dec, iv, Cut(n, c), x);
    CodeBookIgnoresChain(enc, dec, chain, Last(iv, if same then p else Cut(n, c)), x);
    JoinSnoc(p, y);
  }
}
