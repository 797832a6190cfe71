/** `AES128CTR`: the pre-shared key, the nonce derived from a packet's
    sequence number and addresses, and the counter-mode transform of a
    32-byte payload. The AES block cipher is abstracted into a key stream:
    byte `i` of the stream is a function of the key, the initial counter
    block (the nonce) and `i`, and is XORed into the data (AES-CTR, section
    6.5 of NIST SP 800-38A). */
module Crypto {
  import opened Bytes

  const KEY_SIZE: nat := 16
  const NONCE_SIZE: nat := 16
  const PAYLOAD_SIZE: nat := 32

  /** Key stream byte `i` for a key and a nonce. */
  type KeyStream = (seq<Byte>, seq<Byte>, nat) -> Byte

  /** The nonce: `seqNo` little-endian in bytes 0-3, `src`, `dst`, then ten zero bytes. */
  function NonceOf(seqNo: U32, src: Byte, dst: Byte): (n: seq<Byte>)
    ensures |n| == NONCE_SIZE
    ensures n[..4] == Le32(seqNo) && n[4] == src && n[5] == dst
    ensures forall i :: 6 <= i < NONCE_SIZE ==> n[i] == 0
  {
    Le32(seqNo) + [src, dst] + Zeros(10)
  }

  /** Distinct (seq, src, dst) triples give distinct nonces. */
  lemma NonceInjective(seqNo1: U32, src1: Byte, dst1: Byte, seqNo2: U32, src2: Byte, dst2: Byte)
    requires NonceOf(seqNo1, src1, dst1) == NonceOf(seqNo2, src2, dst2)
    ensures seqNo1 == seqNo2 && src1 == src2 && dst1 == dst2
  {
    FromLe32OfLe32(seqNo1);
    FromLe32OfLe32(seqNo2);
  }

  /** The first `n` bytes of the key stream. */
  function KeyStreamBytes(ks: KeyStream, key: seq<Byte>, nonce: seq<Byte>, n: nat): (r: seq<Byte>)
    ensures |r| == n && forall i :: 0 <= i < n ==> r[i] == ks(key, nonce, i)
  {
    seq(n, (i: nat) => ks(key, nonce, i))
  }

  /** The CTR transform of `data`: byte `i` XORed with key stream byte `i`. */
  function Transform(ks: KeyStream, key: seq<Byte>, nonce: seq<Byte>, data: seq<Byte>): (r: seq<Byte>)
    ensures |r| == |data|
    ensures forall i :: 0 <= i < |data| ==> r[i] == Xor(data[i], ks(key, nonce, i))
  {
    XorBytes(data, KeyStreamBytes(ks, key, nonce, |data|))
  }

  /** Decryption is encryption: applying the transform twice with the same
      key and nonce gives the data back. */
  lemma TransformInvolutive(ks: KeyStream, key: seq<Byte>, nonce: seq<Byte>, data: seq<Byte>)
    ensures Transform(ks, key, nonce, Transform(ks, key, nonce, data)) == data
  {
    XorBytesInvolutive(data, KeyStreamBytes(ks, key, nonce, |data|));
  }

  /** `buildNonce`: clears the buffer, then writes `seqNo`, `src` and `dst`. */
  method BuildNonce(nonce: array<Byte>, seqNo: U32, src: Byte, dst: Byte)
    requires nonce.Length == NONCE_SIZE
    modifies nonce
    ensures nonce[..] == NonceOf(seqNo, src, dst)
  {
    for i := 0 to NONCE_SIZE
      invariant forall j :: 0 <= j < i ==> nonce[j] == 0
    {
      nonce[i] := 0;
    }
    ShiftedBytes(seqNo);
    nonce[0] := seqNo % 0x100;
    nonce[1] := (seqNo / 0x100) % 0x100;
    nonce[2] := (seqNo / 0x1_0000) % 0x100;
    nonce[3] := (seqNo / 0x100_0000) % 0x100;
    nonce[4] := src;
    nonce[5] := dst;
    assert nonce[..4] == Le32(seqNo);
    assert nonce[6..] == Zeros(10);
  }

  /** The shifts `buildNonce` writes are the little-endian bytes. */
  lemma ShiftedBytes(v: U32)
    ensures Le32(v) == [v % 0x100, (v / 0x100) % 0x100, (v / 0x1_0000) % 0x100, (v / 0x100_0000) % 0x100]
  {
    var lo := v % 0x1_0000;
    var hi := v / 0x1_0000;
    assert (v / 0x100) % 0x100 == lo / 0x100;
    assert (v / 0x100_0000) % 0x100 == hi / 0x100;
  }

  /** The cipher object: the key stream stands for AES-128 under `psk`. */
  class Aes128Ctr {
    const keystream: KeyStream
    /** The stored pre-shared key. */
    const psk: array<Byte>

    predicate Valid()
      reads this
    {
      psk.Length == KEY_SIZE
    }

    /** The key buffer starts zeroed. */
    constructor (ks: KeyStream)
      ensures Valid() && keystream == ks && fresh(psk)
      ensures forall i :: 0 <= i < KEY_SIZE ==> psk[i] == 0
    {
      keystream := ks;
      psk := new Byte[KEY_SIZE](_ => 0);
    }

    /** `setKey`: copies exactly 16 key bytes. */
    method SetKey(key: array<Byte>)
      requires Valid() && key.Length == KEY_SIZE
      modifies psk
      ensures psk[..] == old(key[..])
    {
      ghost var k := key[..];
      for i := 0 to KEY_SIZE
        invariant forall j :: 0 <= j < i ==> psk[j] == k[j]
        invariant forall j :: i <= j < KEY_SIZE ==> key[j] == k[j]
      {
        psk[i] := key[i];
      }
    }

    /** `encryptPayload`: the first 32 bytes of `ciphertext` become the CTR
        transform of the first 32 bytes of `plaintext` (the two may be the
        same buffer); nothing else changes. */
    method EncryptPayload(plaintext: array<Byte>, ciphertext: array<Byte>, seqNo: U32, src: Byte, dst: Byte)
      requires Valid()
      requires plaintext.Length >= PAYLOAD_SIZE && ciphertext.Length >= PAYLOAD_SIZE
      requires ciphertext != psk
      modifies ciphertext
      ensures ciphertext[..PAYLOAD_SIZE] ==
        Transform(keystream, psk[..], NonceOf(seqNo, src, dst), old(plaintext[..PAYLOAD_SIZE]))
      ensures ciphertext[PAYLOAD_SIZE..] == old(ciphertext[PAYLOAD_SIZE..])
    {
      var nonce := new Byte[NONCE_SIZE];
      BuildNonce(nonce, seqNo, src, dst);
      ghost var input := plaintext[..PAYLOAD_SIZE];
      ghost var want := Transform(keystream, psk[..], nonce[..], input);
      for i := 0 to PAYLOAD_SIZE
        invariant forall j :: 0 <= j < i ==> ciphertext[j] == want[j]
        invariant forall j :: i <= j < PAYLOAD_SIZE ==> plaintext[j] == input[j]
        invariant ciphertext[PAYLOAD_SIZE..] == old(ciphertext[PAYLOAD_SIZE..])
        invariant nonce[..] == NonceOf(seqNo, src, dst)
      {
        ciphertext[i] := Xor(plaintext[i], keystream(psk[..], nonce[..], i));
      }
      assert ciphertext[..PAYLOAD_SIZE] == want;
    }

    /** `decryptPayload` is the same call as `encryptPayload`. */
    method DecryptPayload(ciphertext: array<Byte>, plaintext: array<Byte>, seqNo: U32, src: Byte, dst: Byte)
      requires Valid()
      requires ciphertext.Length >= PAYLOAD_SIZE && plaintext.Length >= PAYLOAD_SIZE
      requires plaintext != psk
      modifies plaintext
      ensures plaintext[..PAYLOAD_SIZE] ==
        Transform(keystream, psk[..], NonceOf(seqNo, src, dst), old(ciphertext[..PAYLOAD_SIZE]))
      ensures plaintext[PAYLOAD_SIZE..] == old(plaintext[PAYLOAD_SIZE..])
    {
      EncryptPayload(ciphertext, plaintext, seqNo, src, dst);
    }
  }
}
