/** Encrypting a message for a peer and decrypting it: base 64 around padding around a block
    cipher run over the buffer in place. */
module BlockCrypto {
  import opened Options
  import opened Base64

  type Bytes = seq<Byte>

  const BLOCK := 16

  type Block = b: Bytes | |b| == BLOCK witness seq(BLOCK, _ => 0)

  /** Key agreement and the block cipher, left abstract: `agree` derives the cipher's key
      from one side's private key and the other's public key, or refuses them. */
  datatype Suite<!K> = Suite(
    public: Bytes -> Bytes,
    agree: (Bytes, Bytes) -> Option<K>,
    enc: (K, Block) -> Block,
    dec: (K, Block) -> Block)

  /** Both sides derive the same secret, and decryption inverts encryption block by block. */
  ghost predicate Sound<K(!new)>(c: Suite<K>) {
    && (forall a, b :: c.agree(a, c.public(b)) == c.agree(b, c.public(a)))
    && (forall k, b :: c.dec(k, c.enc(k, b)) == b)
  }

  // ------------------------------------------------------------------- padding

  predicate Whole(s: Bytes) { |s| % BLOCK == 0 }

  /** How many bytes of padding a message of this length gets: at least one. */
  function PadLength(n: nat): (p: Byte)
    ensures 1 <= p <= BLOCK && (n + p) % BLOCK == 0
  {
    BLOCK - n % BLOCK
  }

  /** Padding as in section 6.3 of RFC 5652. */
  function Pad(s: Bytes): (r: Bytes)
    ensures Whole(r) && |s| < |r| <= |s| + 16 && r[..|s|] == s
    ensures forall i :: |s| <= i < |r| ==> r[i] == |r| - |s|
  {
    s + seq(PadLength(|s|), _ => PadLength(|s|))
  }

  predicate Padded(s: Bytes) {
    && s != []
    && 1 <= s[|s| - 1] <= |s|
    && forall i :: |s| - s[|s| - 1] <= i < |s| ==> s[i] == s[|s| - 1]
  }

  function Unpad(s: Bytes): Option<Bytes> {
    if Padded(s) then Some(s[..|s| - s[|s| - 1]]) else None
  }

  lemma UnpadPad(s: Bytes)
    ensures Unpad(Pad(s)) == Some(s)
  {
    assert Pad(s)[..|s|] == s;
  }

  /** Padding is the only way back, as long as the padding fits in a block. A longer run is
      taken to be accepted too, since unpadding is not told the block size. */
  lemma PadUnpad(s: Bytes)
    requires Whole(s) && Padded(s)
    ensures Pad(Unpad(s).value) == s <==> s[|s| - 1] <= BLOCK
  {
    var p := s[|s| - 1];
    var m := s[..|s| - p];
    if p <= BLOCK {
      PadLengthOf(|m|, p);
      assert Pad(m) == s;
    } else {
      assert |Pad(m)| <= |m| + BLOCK < |s|;
    }
  }

  lemma PadLengthOf(n: nat, p: nat)
    requires 1 <= p <= BLOCK && (n + p) % BLOCK == 0
    ensures PadLength(n) == p
  {
  }

  // -------------------------------------------------------------- block by block

  /** The buffer with every block replaced. */
  ghost function EachBlock(f: Block -> Block, s: Bytes): (r: Bytes)
    requires Whole(s)
    ensures |r| == |s|
  {
    if s == [] then [] else f(s[..BLOCK]) + EachBlock(f, s[BLOCK..])
  }

  /** Block by block: what stands where block k stood is what the function makes of it. */
  lemma {:induction false} EachBlockAt(f: Block -> Block, s: Bytes, k: nat)
    requires Whole(s) && BLOCK * k + BLOCK <= |s|
    ensures EachBlock(f, s)[BLOCK * k..BLOCK * k + BLOCK] == f(s[BLOCK * k..BLOCK * k + BLOCK])
  {
    var rest := EachBlock(f, s[BLOCK..]);
    assert EachBlock(f, s) == f(s[..BLOCK]) + rest;
    if k == 0 {
      assert s[0..BLOCK] == s[..BLOCK];
    } else {
      EachBlockAt(f, s[BLOCK..], k - 1);
      var i := BLOCK * (k - 1);
      assert s[BLOCK..][i..i + BLOCK] == s[i + BLOCK..i + BLOCK + BLOCK];
      assert EachBlock(f, s)[i + BLOCK..i + BLOCK + BLOCK] == rest[i..i + BLOCK];
    }
  }

  lemma {:induction false} EachBlockInverts(f: Block -> Block, g: Block -> Block, s: Bytes)
    requires Whole(s) && forall b :: g(f(b)) == b
    ensures EachBlock(g, EachBlock(f, s)) == s
  {
    if s != [] {
      var b: Block, rest := s[..BLOCK], s[BLOCK..];
      EachBlockInverts(f, g, rest);
      var out := EachBlock(f, s);
      assert out[..BLOCK] == f(b) && out[BLOCK..] == EachBlock(f, rest);
      assert s == b + rest;
    }
  }

  /** What an in-place pass has still to do when the first i bytes are done. */
  ghost predicate DoneTo(f: Block -> Block, s: Bytes, i: nat, was: Bytes) {
    Whole(was) && i <= |s| && Whole(s[i..]) && s[..i] + EachBlock(f, s[i..]) == EachBlock(f, was)
  }

  lemma DoneNext(f: Block -> Block, s: Bytes, t: Bytes, i: nat, was: Bytes)
    requires DoneTo(f, s, i, was) && i < |s| && i + BLOCK <= |s|
    requires t == s[..i] + f(s[i..i + BLOCK]) + s[i + BLOCK..]
    ensures DoneTo(f, t, i + BLOCK, was)
  {
    assert s[i..][..BLOCK] == s[i..i + BLOCK] && s[i..][BLOCK..] == s[i + BLOCK..];
    assert t[i + BLOCK..] == s[i + BLOCK..] && t[..i + BLOCK] == s[..i] + f(s[i..i + BLOCK]);
  }

  /** One block, written over itself. */
  method OverwriteBlock(f: Block -> Block, a: array<Byte>, i: nat)
    requires i + BLOCK <= a.Length
    modifies a
    ensures a[..] == old(a[..i]) + f(old(a[i..i + BLOCK])) + old(a[i + BLOCK..])
  {
    var out := f(a[i..i + BLOCK]);
    for n := 0 to BLOCK
      invariant forall k :: 0 <= k < n ==> a[i + k] == out[k]
      invariant forall k :: 0 <= k < a.Length && (k < i || i + n <= k) ==> a[k] == old(a[k])
    {
      a[i + n] := out[n];
    }
    Spliced(old(a[..]), a[..], i, out);
    assert old(a[..])[..i] == old(a[..i]) && old(a[..])[i + BLOCK..] == old(a[i + BLOCK..]);
  }

  lemma Spliced(was: Bytes, now: Bytes, i: nat, out: Block)
    requires |now| == |was| && i + BLOCK <= |was|
    requires forall k :: 0 <= k < BLOCK ==> now[i + k] == out[k]
    requires forall k :: 0 <= k < |was| && (k < i || i + BLOCK <= k) ==> now[k] == was[k]
    ensures now == was[..i] + out + was[i + BLOCK..]
  {
    forall k | 0 <= k < |was| ensures now[k] == (was[..i] + out + was[i + BLOCK..])[k] {
      if i <= k < i + BLOCK {
        assert now[i + (k - i)] == out[k - i];
      }
    }
  }

  /** The loop of both directions: every block of the buffer, in place. */
  method RunBlocks(f: Block -> Block, a: array<Byte>)
    requires Whole(a[..])
    modifies a
    ensures a[..] == EachBlock(f, old(a[..]))
  {
    var i := 0;
    assert a[..][0..] == a[..];
    while i < a.Length
      invariant 0 <= i <= a.Length && DoneTo(f, a[..], i, old(a[..]))
    {
      StillWhole(a[..], i);
      ghost var before := a[..];
      OverwriteBlock(f, a, i);
      DoneNext(f, before, a[..], i, old(a[..]));
      i := i + BLOCK;
    }
    assert a[..][i..] == [] && a[..][..i] == a[..];
  }

  lemma StillWhole(s: Bytes, i: nat)
    requires i < |s| && Whole(s[i..])
    ensures i + BLOCK <= |s|
  {
  }

  // --------------------------------------------------------- the two operations

  datatype Fault = BadPrivateKey | BadPublicKey | BadData | NoCipher | NotWhole | BadPadding

  datatype Result<T> = Ok(value: T) | Err(fault: Fault)

  ghost function Encrypted<K>(c: Suite<K>, data: Bytes, private: string, public: string): Result<string> {
    match (Decode(private), Decode(public))
    case (None, _) => Err(BadPrivateKey)
    case (_, None) => Err(BadPublicKey)
    case (Some(mine), Some(theirs)) =>
      match c.agree(mine, theirs)
      case None => Err(NoCipher)
      case Some(k) => Ok(Encode(EachBlock((b: Block) => c.enc(k, b), Pad(data))))
  }

  ghost function Decrypted<K>(c: Suite<K>, text: string, private: string, public: string): Result<Bytes> {
    match (Decode(private), Decode(public), Decode(text))
    case (None, _, _) => Err(BadPrivateKey)
    case (_, None, _) => Err(BadPublicKey)
    case (_, _, None) => Err(BadData)
    case (Some(mine), Some(theirs), Some(data)) =>
      match c.agree(mine, theirs)
      case None => Err(NoCipher)
      case Some(k) =>
        if !Whole(data) then Err(NotWhole)
        else
          match Unpad(EachBlock((b: Block) => c.dec(k, b), data))
          case None => Err(BadPadding)
          case Some(message) => Ok(message)
  }

  method BufferOf(s: Bytes) returns (a: array<Byte>)
    ensures fresh(a) && a[..] == s
  {
    a := new Byte[|s|](i requires 0 <= i < |s| => s[i]);
  }

  method Encrypt<K>(c: Suite<K>, data: Bytes, private: string, public: string) returns (r: Result<string>)
    ensures r == Encrypted(c, data, private, public)
  {
    var mine := Decode(private);
    if mine.None? {
      return Err(BadPrivateKey);
    }
    var theirs := Decode(public);
    if theirs.None? {
      return Err(BadPublicKey);
    }
    var key := c.agree(mine.value, theirs.value);
    if key.None? {
      return Err(NoCipher);
    }
    var k := key.value;
    var a := BufferOf(Pad(data));
    RunBlocks((b: Block) => c.enc(k, b), a);
    return Ok(Encode(a[..]));
  }

  method Decrypt<K>(c: Suite<K>, text: string, private: string, public: string) returns (r: Result<Bytes>)
    ensures r == Decrypted(c, text, private, public)
  {
    var mine := Decode(private);
    if mine.None? {
      return Err(BadPrivateKey);
    }
    var theirs := Decode(public);
    if theirs.None? {
      return Err(BadPublicKey);
    }
    var data := Decode(text);
    if data.None? {
      return Err(BadData);
    }
    var key := c.agree(mine.value, theirs.value);
    if key.None? {
      return Err(NoCipher);
    }
    var k := key.value;
    if !Whole(data.value) {
      return Err(NotWhole);
    }
    var a := BufferOf(data.value);
    RunBlocks((b: Block) => c.dec(k, b), a);
    var message := Unpad(a[..]);
    if message.None? {
      return Err(BadPadding);
    }
    return Ok(message.value);
  }

  /** For every message, empty ones included, and every two key pairs: what one side
      encrypts for the other, the other decrypts. */
  lemma DecryptEncrypt<K(!new)>(c: Suite<K>, data: Bytes, a: Bytes, b: Bytes)
    requires Sound(c)
    ensures match Encrypted(c, data, Encode(a), Encode(c.public(b)))
            case Ok(text) => Decrypted(c, text, Encode(b), Encode(c.public(a))) == Ok(data)
            case Err(fault) => fault == NoCipher && c.agree(a, c.public(b)) == None
  {
    RoundTrip(a);
    RoundTrip(b);
    RoundTrip(c.public(a));
    RoundTrip(c.public(b));
    assert c.agree(a, c.public(b)) == c.agree(b, c.public(a));
    if c.agree(a, c.public(b)).Some? {
      var k := c.agree(a, c.public(b)).value;
      var there, back := (x: Block) => c.enc(k, x), (x: Block) => c.dec(k, x);
      RoundTrip(EachBlock(there, Pad(data)));
      EachBlockInverts(there, back, Pad(data));
      UnpadPad(data);
    }
  }

  /** Encryption undoes decryption block by block as well. */
  ghost predicate Onto<K(!new)>(c: Suite<K>) {
    forall k, b :: c.enc(k, c.dec(k, b)) == b
  }

  lemma PassBack(there: Block -> Block, back: Block -> Block, data: Bytes)
    requires Whole(data) && (forall b :: there(back(b)) == b) && Padded(EachBlock(back, data))
    ensures var message := Unpad(EachBlock(back, data)).value;
            EachBlock(there, Pad(message)) == data <==> |data| - |message| <= BLOCK
  {
    var plain := EachBlock(back, data);
    EachBlockInverts(back, there, data);
    PadUnpad(plain);
    var message := Unpad(plain).value;
    if |data| - |message| > BLOCK {
      assert |Pad(message)| <= |message| + BLOCK < |data|;
    }
  }

  /** The other way round: encrypting what was decrypted gives the text back if and only if
      the text is the plain base 64 of its bytes and those were padded by no more than a
      block. */
  lemma EncryptDecrypt<K(!new)>(c: Suite<K>, text: string, message: Bytes, private: string, public: string)
    requires Onto(c) && Decrypted(c, text, private, public) == Ok(message)
    ensures var data := Decode(text).value;
            Encrypted(c, message, private, public) == Ok(text) <==> text == Encode(data) && |data| - |message| <= BLOCK
  {
    var data, k := Decode(text).value, c.agree(Decode(private).value, Decode(public).value).value;
    var there, back := (x: Block) => c.enc(k, x), (x: Block) => c.dec(k, x);
    PassBack(there, back, data);
    var again := EachBlock(there, Pad(message));
    RoundTrip(again);
    assert Encrypted(c, message, private, public) == Ok(Encode(again));
  }

  /** Two blocks of padding: accepted, although padding never makes them. */
  lemma LongPadding()
    ensures var two := seq(2 * BLOCK, _ => 2 * BLOCK);
            Whole(two) && Unpad(two) == Some([]) && Pad([]) != two
  {
    assert |Pad([])| == BLOCK;
  }

  /** Which fault a decryption ends in: the first of these that applies, and none exactly if the
      plain text is padded. */
  lemma DecryptFaults<K>(c: Suite<K>, text: string, private: string, public: string)
    ensures var r := Decrypted(c, text, private, public);
            && (r == Err(BadPrivateKey) <==> Decode(private) == None)
            && (Decode(private).Some? ==> (r == Err(BadPublicKey) <==> Decode(public) == None))
            && (Decode(private).Some? && Decode(public).Some? ==> (r == Err(BadData) <==> Decode(text) == None))
            && (r == Err(NotWhole) ==> Decode(text).Some? && |Decode(text).value| % 16 != 0)
            && (r.Ok? || r == Err(BadPadding) ==> Decode(text).Some? && |Decode(text).value| % 16 == 0)
  {
  }
}
