/** The QMAP frame on the wire and the driver's two encoders. */
module QmapFrame {
  import opened Bytes

  const MUX_ID_BASE: byte := 0x81
  const HEADER_LEN: nat := 4
  const CSUM_HEADER_LEN: nat := 4
  const MAX_CHANNELS: nat := 7

  /** `V1` is the driver's qmap_version 5, `V5` its qmap_version 9. */
  datatype Version = V1 | V5

  /**
   * One frame as the format defines it: a command bit, a pad count, a channel, an optional 4-byte
   * checksum-offload header (its presence is the next-header bit) and a body whose last `pad`
   * bytes are padding.
   */
  datatype Frame = Frame(cd: bool, ext: Option<seq<byte>>, pad: nat, mux: byte, body: seq<byte>)
  {
    ghost predicate WellFormed() {
      && pad < 64
      && |body| < 0x1_0000
      && (ext.Some? ==> |ext.value| == CSUM_HEADER_LEN)
    }

    function HeaderLen(): nat {
      if ext.Some? then HEADER_LEN + CSUM_HEADER_LEN else HEADER_LEN
    }

    function FlagByte(): byte
      requires pad < 64
    {
      (if cd then 128 else 0) + (if ext.Some? then 64 else 0) + pad
    }

    /** The bytes of the frame; the length field keeps only 16 bits of the body length. */
    function Wire(): seq<byte>
      requires pad < 64
    {
      [FlagByte(), mux] + Be16(|body|) + (if ext.Some? then ext.value else []) + body
    }
  }

  function WireAll(fs: seq<Frame>): seq<byte>
    requires forall i :: 0 <= i < |fs| ==> fs[i].pad < 64
  {
    if fs == [] then [] else fs[0].Wire() + WireAll(fs[1..])
  }

  /** Bytes needed to reach a multiple of four, or none when the buffer has no room for them. */
  function PadFor(len: nat, tailroom: nat): (pad: nat)
    ensures pad < 4 && pad <= tailroom
    ensures pad != 0 ==> (len + pad) % 4 == 0
    ensures tailroom >= 3 ==> (len + pad) % 4 == 0
  {
    var want := if len % 4 == 0 then 0 else 4 - len % 4;
    if tailroom < want then 0 else want
  }

  /**
   * The frame built for `payload` when the socket buffer is followed in memory by `tail`. The
   * padding is whatever those tail bytes held: the driver extends the buffer without clearing it.
   */
  function Framed(v: Version, mux: byte, payload: seq<byte>, tail: seq<byte>): (f: Frame)
    ensures f.pad < 4 && f.mux == mux && !f.cd
    ensures |f.body| == |payload| + f.pad && f.body[..|payload|] == payload
  {
    var pad := PadFor(|payload|, |tail|);
    Frame(false, if v.V5? then Some([4, 0, 0, 0]) else None, pad, mux, payload + tail[..pad])
  }

  /** A socket buffer: `data` is the packet, `tail` the memory after it up to the buffer's end. */
  class SkBuff {
    var data: seq<byte>
    var tail: seq<byte>

    constructor (data: seq<byte>, tail: seq<byte>)
      ensures this.data == data && this.tail == tail
    {
      this.data, this.tail := data, tail;
    }

    /** `__skb_put`: extend the packet over the first `n` bytes of the tail. */
    method Put(n: nat)
      requires n <= |tail|
      modifies this
      ensures data == old(data) + old(tail)[..n] && tail == old(tail)[n..]
    {
      data, tail := data + tail[..n], tail[n..];
    }

    /** `skb_push` followed by filling in the pushed header. */
    method Push(header: seq<byte>)
      modifies this`data
      ensures data == header + old(data)
    {
      data := header + data;
    }

    method Pad() returns (pad: nat)
      modifies this
      ensures pad == PadFor(|old(data)|, |old(tail)|)
      ensures data == old(data) + old(tail)[..pad]
    {
      pad := |data| % 4;
      if pad != 0 {
        pad := 4 - pad;
        if |tail| < pad {
          pad := 0;
        }
        if pad != 0 {
          Put(pad);
        }
      }
    }

    method AddQhdr(muxId: byte)
      modifies this
      ensures data == Framed(V1, muxId, old(data), old(tail)).Wire()
    {
      var pad := Pad();
      Push([pad, muxId] + Be16(|data|));
    }

    method AddQhdrV5(muxId: byte)
      modifies this
      ensures data == Framed(V5, muxId, old(data), old(tail)).Wire()
    {
      var datalen := |data|;
      var pad := Pad();
      Push([64 + pad, muxId] + Be16(datalen + pad) + [4, 0, 0, 0]);
    }
  }

  /**
   * The frames byte by byte: pad count with the next-header bit clear or set, channel, length, and for a
   * V5 frame one extension header of type 2, checksum offload, with no header behind it and no other bit set.
   */
  lemma WireMeaning(mux: byte, payload: seq<byte>, tail: seq<byte>)
    requires |payload| + 3 < 0x1_0000
    ensures var v1, v5 := Framed(V1, mux, payload, tail).Wire(), Framed(V5, mux, payload, tail).Wire();
      var pad := PadFor(|payload|, |tail|);
      && |v1| == 4 + |payload| + pad && |v5| == 8 + |payload| + pad
      && v1[0] == pad && v5[0] / 64 == 1 && v5[0] % 64 == pad
      && v1[1] == v5[1] == mux && v1[2..4] == v5[2..4]
      && (v1[2] as int) * 256 + v1[3] == |payload| + pad
      && v5[4] / 2 == 2 && v5[4] % 2 == 0 && v5[5] == v5[6] == v5[7] == 0
      && v1[4..4 + |payload|] == v5[8..8 + |payload|] == payload
  {
    var f, g := Framed(V1, mux, payload, tail), Framed(V5, mux, payload, tail);
    assert f.Wire()[4..] == f.body && g.Wire()[8..] == g.body;
  }
}
