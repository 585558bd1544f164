/** The buffers AppendSharedBufs builds are the pieces the wire format expects. */
module SharedWire {
  import opened Bytes
  import opened ChunkFormat
  import opened ChunkBuffers
  import opened ChunkRoundTrip
  import opened SharedPool

  /** Every buffer but the last full, none empty but perhaps the first: that is the payload cut into chunks. */
  lemma {:induction false} PackedArePieces(nodes: seq<Node>, ids: seq<nat>, n: nat)
    requires n > 0 && ids != [] && Packed(nodes, ids, n + MAX_CHUNK_HEADER) && NoEmptyTail(nodes, ids)
    requires forall i :: 0 <= i < |ids| ==> nodes[ids[i]].buf.Valid(n + MAX_CHUNK_HEADER)
    ensures |Pieces(Payload(nodes, ids), n)| == |ids|
    ensures forall i :: 0 <= i < |ids| ==> Pieces(Payload(nodes, ids), n)[i] == nodes[ids[i]].buf.Live()
    decreases |ids|
  {
    var first, rest := nodes[ids[0]].buf.Live(), ids[1..];
    var payload := Payload(nodes, ids);
    assert payload == first + Payload(nodes, rest);
    if rest == [] {
      assert payload == first;
    } else {
      PackedArePieces(nodes, rest, n);
      assert rest[0] == ids[1] && |Payload(nodes, rest)| > 0;
      assert payload[..n] == first && payload[n..] == Payload(nodes, rest);
    }
  }
}
