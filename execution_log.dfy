/** The MSF execution transcript: blocks separated by `-----\n`, searched
    for the block that records a combo's run. */
module ExecutionLog {
  import opened Wrappers
  import opened Text
  import opened Errors
  import opened Identity

  const BlockSeparator: string := "-----\n"

  /** The transcript cut at every `-----\n`, including one that ends a
      longer line such as `abc-----\n`. The blocks, joined again with the
      separator, are the transcript, and no block holds a separator. */
  function Blocks(transcript: string): (blocks: seq<string>)
    ensures |blocks| >= 1
    ensures Join(blocks, BlockSeparator) == transcript
    ensures forall i :: 0 <= i < |blocks| ==> !Contains(blocks[i], BlockSeparator)
  {
    Split(transcript, BlockSeparator)
  }

  /** The block mentions the payload and the encoder, each at the end of a line. */
  predicate Mentions(block: string, id: ComboIdentity) {
    Contains(block, id.payload + "\n") && Contains(block, id.encoder + "\n")
  }

  /** Index of the first block, at or after `from`, that mentions `id`. */
  function FirstMention(blocks: seq<string>, id: ComboIdentity, from: nat): (r: Option<nat>)
    requires from <= |blocks|
    ensures r.Some? ==> from <= r.value < |blocks| && Mentions(blocks[r.value], id)
    ensures r.Some? ==> forall j :: from <= j < r.value ==> !Mentions(blocks[j], id)
    ensures r.None? ==> forall j :: from <= j < |blocks| ==> !Mentions(blocks[j], id)
    decreases |blocks| - from
  {
    if from == |blocks| then None
    else if Mentions(blocks[from], id) then Some(from)
    else FirstMention(blocks, id, from + 1)
  }

  /** The block recording the run of the combo `id`: the first one, in
      transcript order, that mentions both its payload and its encoder. When
      none does, the whole run stops. */
  function Lookup(id: ComboIdentity, blocks: seq<string>): (r: Result<string, Abort>)
    ensures r.Success? ==>
      exists i :: 0 <= i < |blocks| && blocks[i] == r.value && Mentions(blocks[i], id)
        && forall j :: 0 <= j < i ==> !Mentions(blocks[j], id)
    ensures r.Failure? ==>
      r.error == RecordNotFound(id.payload, id.encoder)
        && forall j :: 0 <= j < |blocks| ==> !Mentions(blocks[j], id)
  {
    match FirstMention(blocks, id, 0)
    case Some(i) => Success(blocks[i])
    case None => Failure(RecordNotFound(id.payload, id.encoder))
  }

  /** Only the first mentioning block matters: blocks after it, mentioning or
      not, never change the lookup. */
  lemma {:induction false} LookupIgnoresLaterBlocks(id: ComboIdentity, blocks: seq<string>, later: seq<string>)
    requires Lookup(id, blocks).Success?
    ensures Lookup(id, blocks + later) == Lookup(id, blocks)
  {
    var i := FirstMention(blocks, id, 0).value;
    var all := blocks + later;
    assert Mentions(all[i], id);
    assert forall j :: 0 <= j < i ==> all[j] == blocks[j];
  }
}
