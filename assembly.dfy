/**
 * Reassembly of a streamed, unframed reply: the received chunks are appended
 * to a growing buffer and, after every receive, the whole buffer is handed to
 * the decoder; the first buffer that decodes is the reply. The decoder is a
 * parameter (the JSON library is not part of this model) and the stream is
 * the finite sequence of chunks the socket delivers.
 */
module Assembly {
  import opened Wrappers

  /**
   * Decoded: the reply and how many chunks were received up to it.
   * Exhausted: every chunk was received and no buffer decoded; what was accumulated.
   */
  datatype Assembled<R> = Decoded(reply: R, received: nat) | Exhausted(buffer: string)

  /** The in-order concatenation of the chunks. */
  function Concat(chunks: seq<string>): string
    decreases |chunks|
  {
    if chunks == [] then "" else Concat(chunks[..|chunks| - 1]) + chunks[|chunks| - 1]
  }

  /** One step of the accumulator: a non-empty chunk is appended, an empty one is skipped. */
  function Append(buffer: string, chunk: string): string {
    if chunk != "" then buffer + chunk else buffer
  }

  /**
   * The outcome once `chunks` have been received: the decoding of the first
   * buffer that decodes, attempting one decode after every chunk.
   */
  function Assemble<R>(chunks: seq<string>, decode: string -> Option<R>): (a: Assembled<R>)
    ensures a.Decoded? ==> 1 <= a.received <= |chunks|
    ensures a.Decoded? ==> decode(Concat(chunks[..a.received])) == Some(a.reply)
    ensures a.Decoded? ==> forall j :: 1 <= j < a.received ==> decode(Concat(chunks[..j])).None?
    ensures a.Exhausted? ==> a.buffer == Concat(chunks)
    ensures a.Exhausted? ==> forall j :: 1 <= j <= |chunks| ==> decode(Concat(chunks[..j])).None?
    decreases |chunks|
  {
    if chunks == [] then Exhausted("")
    else
      var earlier := chunks[..|chunks| - 1];
      assert forall j :: 0 <= j <= |earlier| ==> earlier[..j] == chunks[..j];
      var previous := Assemble(earlier, decode);
      if previous.Decoded? then previous
      else
        var buffer := Append(previous.buffer, chunks[|chunks| - 1]);
        assert buffer == Concat(chunks) && chunks[..|chunks|] == chunks;
        match decode(buffer)
        case Some(reply) => Decoded(reply, |chunks|)
        case None => Exhausted(buffer)
  }

  /** Once a buffer has decoded, further chunks change nothing: they are never received. */
  lemma {:induction false} AssembleSettles<R>(chunks: seq<string>, decode: string -> Option<R>, k: nat)
    requires 1 <= k <= |chunks|
    requires Assemble(chunks[..k], decode).Decoded?
    ensures Assemble(chunks, decode) == Assemble(chunks[..k], decode)
    decreases |chunks|
  {
    if k == |chunks| {
      assert chunks[..k] == chunks;
    } else {
      var earlier := chunks[..|chunks| - 1];
      assert earlier[..k] == chunks[..k];
      AssembleSettles(earlier, decode, k);
    }
  }

  /** The buffer after the first k chunks is a prefix of the buffer after all of them. */
  lemma {:induction false} ConcatPrefix(chunks: seq<string>, k: nat)
    requires k <= |chunks|
    ensures Concat(chunks[..k]) <= Concat(chunks)
    decreases |chunks|
  {
    if k == |chunks| {
      assert chunks[..k] == chunks;
    } else {
      var earlier := chunks[..|chunks| - 1];
      assert earlier[..k] == chunks[..k];
      ConcatPrefix(earlier, k);
    }
  }

  /** A single chunk accumulates to itself. */
  lemma ConcatSingle(chunk: string)
    ensures Concat([chunk]) == chunk
  {
    assert [chunk][..0] == [];
  }

  /**
   * For a decoder that accepts the complete document and none of its proper
   * prefixes, the way the document is cut into chunks does not matter: any
   * chunking yields the reply the whole document decodes to, as delivering
   * it in one piece does.
   */
  lemma ChunkingIrrelevant<R>(chunks: seq<string>, decode: string -> Option<R>, document: string, reply: R)
    requires |chunks| >= 1 && Concat(chunks) == document
    requires decode(document) == Some(reply)
    requires forall p :: p < document ==> decode(p) == None
    ensures Assemble(chunks, decode).Decoded?
    ensures Assemble(chunks, decode).reply == reply
    ensures Assemble([document], decode) == Decoded(reply, 1)
  {
    var a := Assemble(chunks, decode);
    assert chunks[..|chunks|] == chunks;
    if a.Exhausted? {
      assert false;
    }
    var buffer := Concat(chunks[..a.received]);
    ConcatPrefix(chunks, a.received);
    assert buffer <= document && decode(buffer).Some?;
    assert buffer == document;
    ConcatSingle(document);
    assert [document][..1] == [document];
  }

  /** The receive loop; returns what Assemble says once all chunks it needed are in. */
  method AssembleReply<R>(chunks: seq<string>, decode: string -> Option<R>) returns (a: Assembled<R>)
    ensures a == Assemble(chunks, decode)
  {
    var re := "";
    var i := 0;
    while i < |chunks|
      invariant 0 <= i <= |chunks|
      invariant Assemble(chunks[..i], decode) == Exhausted(re)
    {
      var str := chunks[i];
      if str != "" {
        re := re + str;
      }
      assert chunks[..i + 1][..i] == chunks[..i];
      i := i + 1;
      match decode(re)
      case Some(reply) =>
        AssembleSettles(chunks, decode, i);
        return Decoded(reply, i);
      case None =>
    }
    assert chunks[..i] == chunks;
    a := Exhausted(re);
  }
}
