/** Uploading the CLM blob to the WiFi firmware in chunks flagged first and last. */
module Clm {
  import opened Options

  type Byte = b: nat | b < 256

  const MAX_CHUNK: nat := 256

  datatype Chunk = Chunk(begin: bool, end: bool, data: seq<Byte>)

  // The firmware's side: BEGIN starts a blob, END completes it; anything else out of order loses it.
  datatype Loader = Idle | Partial(data: seq<Byte>) | Complete(data: seq<Byte>)

  function Receive(l: Loader, c: Chunk): Loader {
    var whole := if c.begin then Some(c.data) else if l.Partial? then Some(l.data + c.data) else None;
    match whole
    case None => Idle
    case Some(data) => if c.end then Complete(data) else Partial(data)
  }

  function Received(chunks: seq<Chunk>): Loader {
    if chunks == [] then Idle else Receive(Received(chunks[..|chunks| - 1]), chunks[|chunks| - 1])
  }

  lemma NothingReceived()
    ensures Received([]) == Idle
  {
  }

  lemma ReceivedAppend(chunks: seq<Chunk>, c: Chunk)
    ensures Received(chunks + [c]) == Receive(Received(chunks), c)
  {
    assert (chunks + [c])[..|chunks|] == chunks;
  }

  /**
   Sends the blob; refused(i) says whether the firmware refuses the i-th chunk.  The first refusal ends
   the upload, with a proper prefix of the blob taken or nothing; without one the firmware ends up with
   exactly the blob.
   */
  method Load(blob: seq<Byte>, refused: nat -> bool) returns (err: bool, sent: seq<Chunk>)
    ensures forall i :: 0 <= i < |sent| ==> |sent[i].data| <= MAX_CHUNK && !refused(i)
    ensures !err ==> Received(sent) == Complete(blob)
    ensures err ==> refused(|sent|)
    ensures err ==> Received(sent) == Idle || (Received(sent).Partial? && Received(sent).data < blob)
  {
    hide Received;
    NothingReceived();
    var cumulative := 0;
    var begin, end := true, false;
    err, sent := false, [];
    while true
      invariant cumulative <= |blob| && !end && !err
      invariant begin <==> sent == []
      invariant sent == [] ==> cumulative == 0
      invariant sent != [] ==> cumulative < |blob| && Received(sent) == Partial(blob[..cumulative])
      invariant forall i :: 0 <= i < |sent| ==> |sent[i].data| <= MAX_CHUNK && !refused(i)
      decreases |blob| - cumulative
    {
      var len := MAX_CHUNK;
      if |blob| - cumulative <= MAX_CHUNK {
        len := |blob| - cumulative;
        end := true;
      }
      var chunk := Chunk(begin, end, blob[cumulative..cumulative + len]);
      err := refused(|sent|);
      if err {
        return;
      }
      ReceivedAppend(sent, chunk);
      sent := sent + [chunk];
      assert blob[..cumulative] + chunk.data == blob[..cumulative + len];
      begin := false;
      cumulative := cumulative + len;
      if cumulative >= |blob| {
        assert blob[..cumulative] == blob;
        return;
      }
    }
  }
}
