/** MD5Final: the digest of a message in one call. */
module OneShot {
  import opened Word32
  import opened LittleEndian
  import opened Rfc1321
  import opened Blocks
  import opened Streaming
  import opened Counter
  import opened Padding
  import opened Md5
  import Codec

  method Final(decrypt: array<u8>, at: nat, encrypt: array<u8>, offset: nat, length: u16)
    requires offset + length <= encrypt.Length && at + 16 <= decrypt.Length
    modifies decrypt
    ensures var m := old(encrypt[offset..offset + length]);
      decrypt[..] == old(decrypt[..at]) + Digest(m) + old(decrypt[at + 16..])
  {
    hide Absorb, Digest, Represents, Finished, Output;
    ghost var m := encrypt[offset..offset + length];
    var md5 := new Md5Context();
    md5.Init();
    OneUpdate(md5.buffer[..], m);
    md5.Update(encrypt, offset, length);
    FinishedRepresents(md5.View(), m);
    Finish(md5, decrypt, at);
  }

  /** The rest of a digest, once the context has seen the message. The global
      PADDING is a local array here: nothing writes to it. */
  method Finish(md5: Md5Context, decrypt: array<u8>, at: nat)
    requires md5.Valid() && decrypt != md5.buffer && at + 16 <= decrypt.Length
    modifies md5.count, md5.state, md5.buffer, decrypt
    ensures decrypt[..] == old(decrypt[..at]) + Output(Finished(old(md5.View())).state) + old(decrypt[at + 16..])
  {
    hide And, Shr, Absorb, Bytes, CountBytes, Output, Word64;
    ghost var c := md5.View();
    var padding := new u8[64](k => if k == 0 then 0x80 else 0);
    var bits := new u8[8];
    IndexBits(md5.count[0], md5.count[1]);
    var index := And(Shr(md5.count[0], 3), 0x3F);
    var padlen := if index < 56 then 56 - index else 120 - index;
    EncodeCount(bits, md5);
    hide Md5Context.View;
    assert padding[0..padlen] == PaddingBytes()[..PadLen(Index(c))];
    md5.Update(padding, 0, padlen);
    assert bits[0..8] == bits[..];
    md5.Update(bits, 0, 8);
    assert md5.View() == Finished(c);
    EncodeState(decrypt, at, md5);
  }

  /** Initialising, any run of updates and the end of a digest. */
  method DigestPieces(decrypt: array<u8>, at: nat, inputs: seq<Slice>, ghost chunks: seq<seq<u8>>)
    requires at + 16 <= decrypt.Length && |chunks| == |inputs| && LoopsEnd(0, chunks)
    requires forall k :: 0 <= k < |inputs| ==> inputs[k].Holds(chunks[k])
    modifies decrypt
    ensures decrypt[..] == old(decrypt[..at]) + Digest(Concat(chunks)) + old(decrypt[at + 16..])
  {
    hide *;
    var md5 := new Md5Context();
    md5.Init();
    StreamedDigest(md5.buffer[..], chunks);
    InitialIndex(INITIAL, md5.buffer[..]);
    md5.UpdateAll(inputs, chunks);
    Finish(md5, decrypt, at);
  }

  method EncodeCount(bits: array<u8>, md5: Md5Context)
    requires md5.Valid() && bits.Length == 8
    modifies bits
    ensures bits[..] == CountBytes(md5.View().count) == Bytes(md5.count[..])
  {
    hide Bytes;
    Codec.Encode(bits, 0, md5.count, 8);
    assert md5.count[..] == md5.count[..2] == [md5.count[0], md5.count[1]];
  }

  method EncodeState(decrypt: array<u8>, at: nat, md5: Md5Context)
    requires md5.Valid() && at + 16 <= decrypt.Length
    modifies decrypt
    ensures decrypt[..] == old(decrypt[..at]) + Output(old(md5.View()).state) + old(decrypt[at + 16..])
    ensures decrypt[at..at + 16] == Bytes(old(md5.state[..]))
  {
    hide Bytes;
    Codec.Encode(decrypt, at, md5.state, 16);
    assert md5.state[..] == md5.state[..4] == [md5.state[0], md5.state[1], md5.state[2], md5.state[3]];
  }

  lemma OneUpdate(buffer: Block, m: seq<u8>)
    ensures Represents(Compress, INITIAL, Absorb(Compress, Initial(INITIAL, buffer), m), m)
  {
    hide Absorb, Represents;
    InitialRepresents(Compress, INITIAL, buffer);
    AbsorbRepresents(Compress, INITIAL, Initial(INITIAL, buffer), [], m);
    assert [] + m == m;
  }
}
