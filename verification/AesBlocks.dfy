/** The block cipher of aes.c as the driver of cipher.c sees it. */
module AesBlocks {
  import opened BlockModes
  import opened Scatterwalk
  import Cipher
  import AesSpec
  import AesCipher
  import AesTables

  /** What aes_encrypt computes from a block under a key. */
  ghost function Encrypted(key: Bytes, x: Bytes): Bytes
    requires AesCipher.KeySize(|key|) && |x| == 16
  {
    AesCipher.StateBytes(AesSpec.Cipher(AesCipher.StateIn(x), AesCipher.Schedule(key), AesCipher.RoundsFor(|key|)))
  }

  ghost function Decrypted(key: Bytes, x: Bytes): Bytes
    requires AesCipher.KeySize(|key|) && |x| == 16
  {
    AesCipher.StateBytes(AesSpec.InvCipher(AesCipher.StateIn(x), AesCipher.Schedule(key), AesCipher.RoundsFor(|key|)))
  }

  /** The context of aes.c, once keyed, computes these. */
  method EncryptBlock(ctx: AesCipher.Context, tabs: AesTables.Tables, x: Bytes, ghost key: Bytes) returns (y: Bytes)
    requires ctx.Keyed(key) && tabs.Good() && |x| == 16
    ensures AesCipher.KeySize(|key|) && y == Encrypted(key, x)
  {
    ctx.KeyedShape(key);
    y := ctx.Encrypt(tabs, x, key);
  }

  method DecryptBlock(ctx: AesCipher.Context, tabs: AesTables.Tables, x: Bytes, ghost key: Bytes) returns (y: Bytes)
    requires ctx.Keyed(key) && tabs.Good() && |x| == 16
    ensures AesCipher.KeySize(|key|) && y == Decrypted(key, x)
  {
    ctx.KeyedShape(key);
    y := ctx.Decrypt(tabs, x, key);
  }

  /** A pair of block functions that are AES under a key. */
  ghost predicate AreAes(enc: BlockFn, dec: BlockFn, key: Bytes)
    requires AesCipher.KeySize(|key|)
  {
    forall x: Bytes :: |x| == 16 ==> enc(x) == Encrypted(key, x) && dec(x) == Decrypted(key, x)
  }

  lemma BlockInverts(key: Bytes, x: Bytes)
    requires AesCipher.KeySize(|key|) && |x| == 16
    ensures |Encrypted(key, x)| == 16 && Decrypted(key, Encrypted(key, x)) == x
  {
    hide AesSpec.Cipher; hide AesSpec.InvCipher; hide AesSpec.KeyExpansion; hide AesCipher.StateIn;
    hide AesCipher.StateBytes;
    var w, n := AesCipher.Schedule(key), AesCipher.RoundsFor(|key|);
    AesCipher.StateBytesIn(AesSpec.Cipher(AesCipher.StateIn(x), w, n));
    AesSpec.CipherInverts(AesCipher.StateIn(x), w, n);
    AesCipher.StateInBytes(x);
  }

  /** Under every key of 16, 24 or 32 bytes AES is a pair of block functions of the kind the scatterlist round trip is
      proved for. */
  lemma AesInverts(enc: BlockFn, dec: BlockFn, key: Bytes)
    requires AesCipher.KeySize(|key|) && AreAes(enc, dec, key)
    ensures KeepsLength(enc, 16) && KeepsLength(dec, 16) && Inverts(dec, enc, 16)
  {
    hide Encrypted; hide Decrypted;
    forall x: Bytes | |x| == 16 ensures |enc(x)| == 16 && |dec(x)| == 16 && dec(enc(x)) == x {
      BlockInverts(key, x);
      DecryptedSize(key, x);
    }
  }

  lemma DecryptedSize(key: Bytes, x: Bytes)
    requires AesCipher.KeySize(|key|) && |x| == 16
    ensures |Decrypted(key, x)| == 16
  {
  }

  /** cbc(aes) in both directions: CBC encryption with AES from one scatterlist to another and CBC decryption under the
      same key to a third give the text back, under every key and for all segmentations that share bytes compatibly. */
  method CbcThereAndBack(enc: BlockFn, dec: BlockFn, ghost key: Bytes, m: array<bv8>, src: seq<Segment>, mid: seq<Segment>,
                         dst: seq<Segment>, nbytes: nat, iv: array<bv8>, iv': array<bv8>, pageSize: nat)
    requires m != iv && m != iv' && iv != iv' && iv.Length == iv'.Length == 16 && iv[..] == iv'[..]
    requires nbytes % iv.Length == 0 && Cipher.BackAndForth(src, mid, dst, nbytes, iv.Length, m.Length, pageSize)
    requires AesCipher.KeySize(|key|) && AreAes(enc, dec, key)
    modifies m, iv, iv'
    ensures Cipher.Text(m[..], dst, nbytes, pageSize) == Cipher.Text(old(m[..]), src, nbytes, pageSize)
    ensures iv'[..] == iv[..]
  {
    hide AreAes; hide KeepsLength; hide Inverts; hide Flat; hide Cipher.BackAndForth; hide Cipher.Text;
    AesInverts(enc, dec, key);
    Cipher.CbcThereAndBack(enc, dec, m, src, mid, dst, nbytes, iv, iv', pageSize);
  }

  /** The same in place: one list is source and destination of both calls. */
  method CbcInPlace(enc: BlockFn, dec: BlockFn, ghost key: Bytes, m: array<bv8>, list: seq<Segment>, nbytes: nat,
                    iv: array<bv8>, iv': array<bv8>, pageSize: nat)
    requires m != iv && m != iv' && iv != iv' && iv.Length == iv'.Length == 16 && iv[..] == iv'[..]
    requires nbytes % iv.Length == 0
    requires Cipher.Accepts(list, list, nbytes, m.Length, pageSize) && Distinct(Flat(list, pageSize), nbytes)
    requires AesCipher.KeySize(|key|) && AreAes(enc, dec, key)
    modifies m, iv, iv'
    ensures Cipher.Text(m[..], list, nbytes, pageSize) == Cipher.Text(old(m[..]), list, nbytes, pageSize)
    ensures iv'[..] == iv[..]
  {
    hide AreAes; hide KeepsLength; hide Inverts; hide Flat; hide Distinct; hide Cipher.Text;
    if nbytes != 0 {
      FlatNone(list, pageSize);
      Cipher.SameListIsCompatible(CbcEncrypt, list, pageSize, nbytes, 16);
      Cipher.SameListIsCompatible(CbcDecrypt, list, pageSize, nbytes, 16);
    }
    CbcThereAndBack(enc, dec, key, m, list, list, list, nbytes, iv, iv', pageSize);
  }
}
