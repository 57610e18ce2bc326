// Two chains that part after their first block, and the set a tracker then ends up with.
module ForkExample {
  import opened Wrappers
  import opened Bytes
  import opened Rows
  import opened UndoCodec
  import opened UtxoSpec
  import opened UtxoReorg
  import opened Tracker
  import opened TrackerLimits

  function Tag(t: byte): Hash { seq(32, _ => t) }

  /** A block with no inputs that creates one output, all named by `t`. */
  function Tagged(t: byte): NodeBlock {
    NodeBlock(Tag(t), EMPTY_BLOCK.(outputs := [OutputRow(0, 0, 0, Tag(t), 1, 0, 0, ZeroHash())]))
  }

  function TagKey(t: byte): Key { MakeKey(Tag(t), 0) }

  lemma TagsDiffer(s: byte, t: byte)
    ensures TagKey(s) == TagKey(t) || Tag(s) == Tag(t) ==> s == t
  {
    if TagKey(s) == TagKey(t) { MakeKeyInjective(Tag(s), 0, Tag(t), 0); }
    assert Tag(s)[0] == s && Tag(t)[0] == t;
  }

  function ChainOf(tags: seq<byte>): Chain { seq(|tags|, i requires 0 <= i < |tags| => Tagged(tags[i])) }

  /** What such a block does: one more entry, and an undo record that names it. */
  lemma TaggedApplied(utxos: Utxos, height: u32, t: byte)
    ensures var b := Tagged(t).block;
            && ApplyFull(utxos, height, b).utxos.Keys == utxos.Keys + {TagKey(t)}
            && ApplyFull(utxos, height, b).undo == BlockUndo([], [TagKey(t)])
            && Survivors(b) == {TagKey(t)} && !Named(b.inputs, TagKey(t))
  {
    var b := Tagged(t).block;
    var none: set<Key> := {};
    assert b.outputs[..0] == [];
    assert Seed(b.outputs, height).Keys == {TagKey(t)};
    assert utxos - none == utxos;
    assert OutKeys(b.outputs) == [TagKey(t)] && [TagKey(t)][..0] == [];
  }

  function TagKeys(tags: seq<byte>): set<Key> { set t | t in tags :: TagKey(t) }

  lemma {:induction false} ReplayTags(tags: seq<byte>)
    requires |tags| <= U32_RANGE
    ensures ReplayUtxos(ChainOf(tags)).Keys == TagKeys(tags)
  {
    hide ApplyFull;
    hide Tagged;
    hide TagKey;
    if |tags| > 0 {
      var n := |tags| - 1;
      ReplayTags(tags[..n]);
      assert ChainOf(tags)[..n] == ChainOf(tags[..n]);
      TaggedApplied(ReplayUtxos(ChainOf(tags[..n])), n, tags[n]);
      assert tags == tags[..n] + [tags[n]];
    }
  }

  lemma RecordOfTag(tags: seq<byte>, h: nat)
    requires h < |tags| <= U32_RANGE
    ensures UndoOf(UndoRecord(ChainOf(tags), h)) == Some(BlockUndo([], [TagKey(tags[h])]))
  {
    hide ApplyFull;
    hide UndoOf;
    hide TagKey;
    var chain := ChainOf(tags);
    TaggedApplied(ReplayUtxos(chain[..h]), h, tags[h]);
    UndoStorable(ReplayUtxos(chain[..h]), h, chain[h].block);
    RecordRoundTrip(ApplyFull(ReplayUtxos(chain[..h]), h, chain[h].block).undo);
  }

  lemma TagRecordsIdentify(s: seq<byte>, t: seq<byte>)
    requires |s| <= U32_RANGE && |t| <= U32_RANGE
    ensures RecordsIdentify(ChainOf(s), ChainOf(t))
  {
    hide UndoRecord;
    hide TagKey;
    forall h | 0 <= h < |s| && h < |t| && SameRecord(ChainOf(s), ChainOf(t), h)
      ensures ChainOf(s)[h] == ChainOf(t)[h]
    {
      RecordOfTag(s, h);
      RecordOfTag(t, h);
      assert [TagKey(s[h])][0] == [TagKey(t[h])][0];
      TagsDiffer(s[h], t[h]);
    }
  }

  /** A store in sync with such a chain. */
  ghost function SyncedWith(tags: seq<byte>): Local
    requires 0 < |tags| <= U32_RANGE
  {
    var chain := ChainOf(tags);
    Local(Db(ReplayUtxos(chain), map h: u32 | h < |tags| :: UndoRecord(chain, h)), Some(TipOfChain(chain)))
  }

  lemma IsSynced(tags: seq<byte>)
    requires 0 < |tags| <= U32_RANGE
    ensures InSync(SyncedWith(tags), ChainOf(tags), 0)
  {
    hide UndoRecord;
    hide ReplayUtxos;
  }

  const HELD: seq<byte> := [1, 2, 3]
  const SERVED: seq<byte> := [1, 4, 5]

  lemma ForkSets()
    ensures FreshTop(ChainOf(HELD))
    ensures TagKey(2) in ReplayUtxos(ChainOf(HELD)[..2]) && TagKey(2) !in ReplayUtxos(ChainOf(SERVED))
  {
    hide ReplayUtxos;
    hide ApplyFull;
    hide TagKey;
    assert ChainOf(HELD)[..2] == ChainOf(HELD[..2]);
    ReplayTags(HELD[..2]);
    ReplayTags(SERVED);
    assert HELD[..2] == [1, 2];
    TaggedApplied(map[], 0, 3);
    TagsDiffer(2, 1);
    TagsDiffer(2, 4);
    TagsDiffer(2, 5);
    TagsDiffer(3, 1);
    TagsDiffer(3, 2);
  }

  /** The fork is two blocks deep, and meets what the theorems about replaced tips ask for. */
  lemma ForkShape()
    ensures var held, node := ChainOf(HELD), ChainOf(SERVED);
            && held[0] == node[0] && !(held[..2] <= node) && Serves(node)
            && !Matches(node, TipOfChain(held)) && RecordsIdentify(held, node)
            && forall h :: 2 <= h < 3 ==> !Named(node[h].block.inputs, TagKey(2))
  {
    TagsDiffer(2, 4);
    TagsDiffer(3, 5);
    TagRecordsIdentify(HELD, SERVED);
    forall i | 0 <= i < 3 ensures ChainOf(SERVED)[i].hash != ZeroHash() {
      assert ChainOf(SERVED)[i].hash[0] != 0;
    }
    assert ChainOf(HELD)[..2][1] != ChainOf(SERVED)[1];
  }

  /**
   * On these chains a call reports success and stores the node's tip, yet is out of sync
   * with the node: the abandoned first block of the fork is still in the set.
   */
  lemma ThreeBlockFork(step: Stepper, maxReorgDepth: nat)
    requires IsLive(step) && maxReorgDepth > 0
    ensures InSync(SyncedWith(HELD), ChainOf(HELD), 0) && !(ChainOf(HELD)[..2] <= ChainOf(SERVED))
    ensures var o := CatchUp(step, SyncedWith(HELD), ChainOf(SERVED), maxReorgDepth);
            && o.failure.None? && o.local.tip == Some(TipOfChain(ChainOf(SERVED)))
            && !InSync(o.local, ChainOf(SERVED), 0)
            && TagKey(2) in o.local.db.utxos && TagKey(2) !in ReplayUtxos(ChainOf(SERVED))
  {
    hide CatchUp;
    hide ReplayUtxos;
    hide InSync;
    hide FreshTop;
    hide Matches;
    hide RecordsIdentify;
    hide TagKey;
    var l, held, node := SyncedWith(HELD), ChainOf(HELD), ChainOf(SERVED);
    IsSynced(HELD);
    ForkSets();
    ForkShape();
    InSyncIff(step, l, held, node, maxReorgDepth);
    AbandonedOutputStays(step, l, held, node, 0, maxReorgDepth, TagKey(2));
  }
}
