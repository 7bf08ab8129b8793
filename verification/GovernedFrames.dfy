/** Frames and governance blocks together. */
module GovernedFrames {
  import opened Wire
  import opened Frames
  import Governance

  /** Any block handed to the encoder with `to_bytes` arrives, and parses to what is received of it: to itself exactly
      if it has the shape that parsing gives and a tag of at most 255 bytes.  An empty block arrives as none. */
  lemma {:induction false} GovernedFrameRoundTrip(
      mp: Msgpack, clientVersion: bytes, r: Request, b: Governance.Block, order: seq<byte>)
    requires mp.Lawful() && EncodeFrame(mp, clientVersion, r).Ok? && !StrayGovernanceFlag(r)
    requires Governance.ListsTags(order, b.unknown)
    requires Governance.ToBytes(b, order).Ok? && r.governance == Some(Governance.ToBytes(b, order).value)
    ensures DecodeFrame(mp, EncodeFrame(mp, clientVersion, r).value) == Ok(Intended(mp, clientVersion, r))
    ensures var arrived := Intended(mp, clientVersion, r).governance;
            if b == Governance.EMPTY then arrived.None?
            else
              && arrived.Some? && Governance.Parse(arrived.value) == Governance.Received(b, order)
              && (Governance.Parse(arrived.value) == Ok(b)
                  <==> Governance.Normal(b) && (b.coloring.Some? ==> |b.coloring.value| <= 255))
  {
    FrameRoundTrip(mp, clientVersion, r);
    Governance.ParseToBytes(b, order);
    Governance.ComesBackExactly(b, order);
    if b == Governance.EMPTY {
      EmptyBlockBytes(order);
    } else {
      NonEmptyBlockBytes(b, order);
    }
    hide EncodeFrame, DecodeFrame, Governance.ToBytes, Governance.Parse, Governance.Received, Governance.Normal;
  }

  lemma NonEmptyBlockBytes(b: Governance.Block, order: seq<byte>)
    requires Governance.ListsTags(order, b.unknown) && b != Governance.EMPTY && Governance.ToBytes(b, order).Ok?
    ensures Governance.ToBytes(b, order).value != []
  {
    Governance.ListsNoTags(order, b.unknown);
  }

  lemma EmptyBlockBytes(order: seq<byte>)
    requires Governance.ListsTags(order, map[])
    ensures Governance.ToBytes(Governance.EMPTY, order) == Ok([])
  {
    Governance.ListsNoTags(order, map[]);
    var none: bytes := [];
    assert none + (none + (none + (none + none))) == none;
  }
}
