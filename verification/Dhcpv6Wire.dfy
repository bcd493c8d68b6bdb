/** A reader of DHCPv6 options that knows nothing but bytes: two of code, two of length, the body. */
module Dhcpv6Wire {
  import opened Common
  import opened BitCursor
  import opened Dhcpv6Codec

  datatype Tag = Tag(code: nat, body: Bytes)

  /** A number of two bytes, the high one first. */
  function Two(bs: Bytes, i: nat): nat
    requires i + 2 <= |bs|
  {
    var high: int, low: int := bs[i], bs[i + 1];
    high * 256 + low
  }

  /** The options in a byte string; none if it does not divide into options. */
  function Tags(bs: Bytes): Option<seq<Tag>> {
    if bs == [] then Some([])
    else if |bs| < 4 || 4 + Two(bs, 2) > |bs| then None
    else
      var n := Two(bs, 2);
      match Tags(bs[4 + n..])
      case None => None
      case Some(rest) => Some([Tag(Two(bs, 0), bs[4..4 + n])] + rest)
  }

  /** A number of four bytes, the high one first. */
  function Four(v: UInt32): (bs: Bytes)
    ensures |bs| == 4
  {
    var n: int := v;
    [n / 0x100_0000, n / 0x1_0000 % 0x100, n / 0x100 % 0x100, n % 0x100]
  }

  lemma HighByteFirst(v: UInt32, w: UInt16)
    ensures U32(v) == Four(v) && |U16(w)| == 2 && Two(U16(w), 0) == w
  {
  }

  lemma TagFirst(code: UInt16, body: Bytes, rest: Bytes)
    requires |body| < 0x1_0000 && Tags(rest).Some?
    ensures Tags(Tlv(code, body) + rest) == Some([Tag(code, body)] + Tags(rest).value)
  {
    var bs := Tlv(code, body) + rest;
    HighByteFirst(0, code);
    HighByteFirst(0, |body|);
    hide U16;
    assert bs[..2] == U16(code) && bs[2..4] == U16(|body|);
    assert bs[0] == bs[..2][0] && bs[1] == bs[..2][1] && bs[2] == bs[2..4][0] && bs[3] == bs[2..4][1];
    assert bs[4..4 + |body|] == body && bs[4 + |body|..] == rest;
  }

  predicate Encodable(t: Tag) { t.code < 0x1_0000 && |t.body| < 0x1_0000 }

  predicate AllEncodable(tags: seq<Tag>) { forall i :: 0 <= i < |tags| ==> Encodable(tags[i]) }

  /** Options one after the other. */
  function Wire(tags: seq<Tag>): Bytes
    requires AllEncodable(tags)
  {
    if tags == [] then [] else Tlv(tags[0].code, tags[0].body) + Wire(tags[1..])
  }

  /** The reader gives back every list of options. */
  lemma {:induction false} TagsOfWire(tags: seq<Tag>)
    requires AllEncodable(tags)
    ensures Tags(Wire(tags)) == Some(tags)
  {
    hide Tags, Tlv;
    if tags == [] {
      NoTags();
    } else {
      TagsOfWire(tags[1..]);
      TagFirst(tags[0].code, tags[0].body, Wire(tags[1..]));
      assert tags == [tags[0]] + tags[1..];
    }
  }

  lemma NoTags()
    ensures Tags([]) == Some([])
  {
  }

  lemma {:induction false} WireOfBoth(a: seq<Tag>, b: seq<Tag>)
    requires AllEncodable(a) && AllEncodable(b)
    ensures AllEncodable(a + b) && Wire(a + b) == Wire(a) + Wire(b)
  {
    hide Tlv;
    if a == [] {
      assert a + b == b;
    } else {
      assert (a + b)[1..] == a[1..] + b;
      WireOfBoth(a[1..], b);
    }
  }

  lemma WireOfOne(t: Tag)
    requires Encodable(t)
    ensures AllEncodable([t]) && Wire([t]) == Tlv(t.code, t.body)
  {
    assert Wire([]) == [] && [t][1..] == [];
  }
}
