/** `CodecBuilder` (Common/Network/CodecBuilder.h): a stack of byte-level layers, each a
    pair of an encoding and a decoding transform. Encoders run in the order the layers
    were added and decoders in the reverse order, so decoding undoes encoding whenever
    every layer's decoder undoes its encoder. */
module Layers {
  import opened Octets
  import Codec

  /** A `std::function` from bytes to bytes. */
  type Transform = seq<Octet> -> seq<Octet>

  /** Runs the transforms front to back, each on the previous one's output. */
  function ApplyAll(fs: seq<Transform>, data: seq<Octet>): seq<Octet>
    decreases |fs|
  {
    if |fs| == 0 then data else ApplyAll(fs[1..], fs[0](data))
  }

  /** `dec` undoes `enc` on every input. */
  ghost predicate Inverse(enc: Transform, dec: Transform) {
    forall d :: dec(enc(d)) == d
  }

  /** Layer i's encoder is `encoders[i]` and its decoder sits at the mirrored position
      of `decoders`, and it undoes the encoder. */
  ghost predicate Paired(encoders: seq<Transform>, decoders: seq<Transform>) {
    |encoders| == |decoders| &&
    forall i :: 0 <= i < |encoders| ==> Inverse(encoders[i], decoders[|decoders| - 1 - i])
  }

  lemma {:induction false} ApplyAllSnoc(fs: seq<Transform>, f: Transform, data: seq<Octet>)
    ensures ApplyAll(fs + [f], data) == f(ApplyAll(fs, data))
    decreases |fs|
  {
    if |fs| > 0 {
      assert (fs + [f])[1..] == fs[1..] + [f];
      ApplyAllSnoc(fs[1..], f, fs[0](data));
    }
  }

  /** Decoding what the encoders produced gives the data back when the layers are
      paired. */
  lemma {:induction false} DecodeInvertsEncode(encoders: seq<Transform>, decoders: seq<Transform>,
                                               data: seq<Octet>)
    requires Paired(encoders, decoders)
    ensures ApplyAll(decoders, ApplyAll(encoders, data)) == data
    decreases |encoders|
  {
    if |encoders| > 0 {
      var n := |decoders|;
      var e0, d0 := encoders[0], decoders[n - 1];
      var rest, inner := encoders[1..], decoders[..n - 1];
      assert Paired(rest, inner) by {
        forall i | 0 <= i < |rest|
          ensures Inverse(rest[i], inner[|inner| - 1 - i])
        {
          assert rest[i] == encoders[i + 1];
          assert inner[|inner| - 1 - i] == decoders[n - 1 - (i + 1)];
        }
      }
      DecodeInvertsEncode(rest, inner, e0(data));
      assert decoders == inner + [d0];
      ApplyAllSnoc(inner, d0, ApplyAll(rest, e0(data)));
      assert Inverse(e0, d0);
    }
  }

  class CodecBuilder {
    var encoders: seq<Transform>
    var decoders: seq<Transform>

    constructor()
      ensures encoders == [] && decoders == []
    {
      encoders := [];
      decoders := [];
    }

    /** `AddLayer`: the encoder goes last and the decoder first. */
    method AddLayer(encode: Transform, decode: Transform)
      modifies this
      ensures encoders == old(encoders) + [encode]
      ensures decoders == [decode] + old(decoders)
      ensures Paired(old(encoders), old(decoders)) && Inverse(encode, decode) ==>
        Paired(encoders, decoders)
    {
      encoders := encoders + [encode];
      decoders := [decode] + decoders;
      if Paired(old(encoders), old(decoders)) && Inverse(encode, decode) {
        forall i | 0 <= i < |encoders|
          ensures Inverse(encoders[i], decoders[|decoders| - 1 - i])
        {
          if i < |old(encoders)| {
            assert encoders[i] == old(encoders)[i];
            assert decoders[|decoders| - 1 - i] == old(decoders)[|old(decoders)| - 1 - i];
          }
        }
      }
    }

    /** `Encode`: the codec's bytes through every encoder in the order added. */
    method Encode(codec: Codec.PacketCodec) returns (data: seq<Octet>)
      ensures data == ApplyAll(encoders, codec.Data())
    {
      data := codec.Data();
      for i := 0 to |encoders|
        invariant ApplyAll(encoders[i..], data) == ApplyAll(encoders, codec.Data())
      {
        assert encoders[i..][1..] == encoders[i + 1..];
        data := encoders[i](data);
      }
    }

    /** `Decode`: the raw bytes through every decoder, in a fresh codec that reads from
        the start. */
    method Decode(raw: seq<Octet>) returns (codec: Codec.PacketCodec)
      ensures fresh(codec)
      ensures codec.buffer == ApplyAll(decoders, raw) && codec.readPos == 0
    {
      var data := raw;
      for i := 0 to |decoders|
        invariant ApplyAll(decoders[i..], data) == ApplyAll(decoders, raw)
      {
        assert decoders[i..][1..] == decoders[i + 1..];
        data := decoders[i](data);
      }
      codec := new Codec.PacketCodec.FromData(data);
    }
  }

  /** With no layers the bytes pass through unchanged; with two layers added in turn,
      encoding runs the first one's encoder first and decoding runs the second one's
      decoder first. */
  lemma LayerOrder(e1: Transform, d1: Transform, e2: Transform, d2: Transform, data: seq<Octet>)
    ensures ApplyAll([], data) == data
    ensures ApplyAll([e1, e2], data) == e2(e1(data))
    ensures ApplyAll([d2, d1], data) == d1(d2(data))
  {
    assert [e1, e2][1..] == [e2];
    assert ApplyAll([e2], e1(data)) == ApplyAll([], e2(e1(data)));
    assert [d2, d1][1..] == [d1];
    assert ApplyAll([d1], d2(data)) == ApplyAll([], d1(d2(data)));
  }
}
