/** The buffers of the protocol: a node owns an array one byte longer than its content, so
    that the content is always followed by a zero. */
module MsgNodes {
  import opened Wire

  /** The node the session keeps for headers. */
  class MsgNode {
    const data: array<Byte>
    const totalLen: nat
    var curLen: nat

    ghost predicate Valid()
      reads this, data
    {
      data.Length == totalLen + 1 && curLen <= totalLen && data[totalLen] == 0
    }

    constructor (totalLen: nat)
      ensures Valid() && fresh(data)
      ensures this.totalLen == totalLen && curLen == 0
      ensures forall i :: 0 <= i < data.Length ==> data[i] == 0
    {
      this.totalLen := totalLen;
      data := new Byte[totalLen + 1](_ => 0);
      curLen := 0;
    }

    method Clear()
      requires Valid()
      modifies this`curLen, data
      ensures Valid() && curLen == 0
      ensures forall i :: 0 <= i < data.Length ==> data[i] == 0
    {
      forall i | 0 <= i < totalLen {
        data[i] := 0;
      }
      curLen := 0;
    }
  }

  /** A received body with the id of its header. */
  class RecvNode {
    const data: array<Byte>
    const totalLen: nat
    const msgId: Short
    var curLen: nat

    ghost predicate Valid()
      reads this, data
    {
      data.Length == totalLen + 1 && curLen <= totalLen <= MAX_LENGTH && data[totalLen] == 0
    }

    constructor (bodyLen: nat, msgId: Short)
      requires bodyLen <= MAX_LENGTH
      ensures Valid() && fresh(data)
      ensures totalLen == bodyLen && this.msgId == msgId && curLen == 0
    {
      totalLen := bodyLen;
      this.msgId := msgId;
      data := new Byte[bodyLen + 1](_ => 0);
      curLen := 0;
    }

    /** What the handler is given: the id and the first `curLen` bytes. */
    ghost function Content(): (r: Frame)
      requires Valid()
      reads this, data
    {
      Frame(msgId, data[..curLen])
    }

    /** The copy the body handler makes once the whole body has been read. */
    method Fill(src: array<Byte>, n: nat)
      requires Valid() && src != data && n == totalLen <= src.Length && curLen == 0
      modifies this`curLen, data
      ensures Valid() && Content() == Frame(msgId, src[..n])
    {
      forall i | 0 <= i < n {
        data[i] := src[i];
      }
      curLen := n + curLen;
      data[totalLen] := 0;
      assert data[..curLen] == src[..n];
    }
  }

  /** A whole frame ready to be written; `frame` is the message it was made from. */
  class SendNode {
    const data: array<Byte>
    const totalLen: nat
    ghost const frame: Frame

    ghost predicate Valid()
      reads data
    {
      data.Length == totalLen + 1 && data[..totalLen] == Encode(frame) && data[totalLen] == 0
    }

    constructor (body: Body, msgId: Short)
      ensures Valid() && fresh(data)
      ensures frame == Frame(msgId, body)
    {
      var id, len := HostToNetwork(msgId), HostToNetwork(|body|);
      totalLen := HEAD_TOTAL_LEN + |body|;
      data := new Byte[HEAD_TOTAL_LEN + |body| + 1](_ => 0);
      frame := Frame(msgId, body);
      new;
      data[0], data[1] := id[0], id[1];
      data[2], data[3] := len[0], len[1];
      forall i | 0 <= i < |body| {
        data[HEAD_TOTAL_LEN + i] := body[i];
      }
      assert data[..totalLen] == Encode(frame);
    }

    /** The bytes a write hands to the socket. */
    method Slice(from: nat, n: nat) returns (r: seq<Byte>)
      requires Valid() && from + n <= |Encode(frame)|
      ensures r == Encode(frame)[from..from + n]
    {
      assert |data[..totalLen]| == |Encode(frame)|;
      r := data[..totalLen][from..from + n];
    }
  }
}
