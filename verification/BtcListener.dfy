/** The Bitcoin listener: block by block, every handler in turn, behind the chain head. */
module BtcListener {
  import opened Seqs

  /** What the outside world answers in one turn of the loop. */
  datatype Turn = Turn(bestHashOk: bool, head: Option<int>, handlerOk: seq<bool>, storeOk: bool)

  datatype Entry =
    | Handled(block: int, handler: nat, head: int, ok: bool)
    | Stored(block: int, ok: bool)

  /** How many blocks were finished. */
  function Finished(log: seq<Entry>): nat {
    if log == [] then 0 else Finished(log[..|log| - 1]) + if log[|log| - 1].Stored? then 1 else 0
  }

  function StoredBlocks(log: seq<Entry>): seq<int> {
    if log == [] then []
    else
      var rest, last := StoredBlocks(log[..|log| - 1]), log[|log| - 1];
      if last.Stored? then rest + [last.block] else rest
  }

  /** The entry just before position p records that handler j of this block and head succeeded. */
  ghost predicate Follows(log: seq<Entry>, p: nat, j: nat, block: int) {
    0 < p <= |log| && log[p - 1].Handled? && log[p - 1].block == block && log[p - 1].handler == j && log[p - 1].ok
  }

  /** Each entry is about the first unfinished block, and comes in handler order behind the confirmed head. */
  ghost predicate GoodEntry(log: seq<Entry>, p: nat, first: int, handlers: nat, confirmations: int)
    requires p < |log|
  {
    && log[p].block == first + Finished(log[..p])
    && match log[p]
       case Handled(block, j, head, _) =>
         && head - block >= confirmations && j < handlers
         && (j > 0 ==> Follows(log, p, j - 1, block) && log[p - 1].head == head)
       case Stored(block, _) => handlers > 0 ==> Follows(log, p, handlers - 1, block)
  }

  ghost predicate GoodLog(log: seq<Entry>, first: int, handlers: nat, confirmations: int) {
    forall p :: 0 <= p < |log| ==> GoodEntry(log, p, first, handlers, confirmations)
  }

  lemma AppendEntry(log: seq<Entry>, e: Entry, first: int, handlers: nat, confirmations: int)
    requires GoodLog(log, first, handlers, confirmations)
    requires GoodEntry(log + [e], |log|, first, handlers, confirmations)
    ensures GoodLog(log + [e], first, handlers, confirmations)
    ensures Finished(log + [e]) == Finished(log) + if e.Stored? then 1 else 0
  {
    var grown := log + [e];
    assert grown[..|log|] == log;
    forall p | 0 <= p < |log| ensures GoodEntry(grown, p, first, handlers, confirmations) {
      assert GoodEntry(log, p, first, handlers, confirmations);
      assert grown[..p] == log[..p];
      assert p > 0 ==> grown[p - 1] == log[p - 1];
    }
  }

  /** The block to start with: the configured one, or the first head that could be read. */
  function FirstBlock(start: Option<int>, turns: seq<Turn>): Option<int> {
    if start.Some? || turns == [] then start
    else
      var before, last := FirstBlock(start, turns[..|turns| - 1]), turns[|turns| - 1];
      if before.Some? then before else if last.bestHashOk then last.head else None
  }

  /** Whether a turn finishes the block that is waited for. */
  predicate Finishes(turn: Turn, block: int, confirmations: int) {
    && turn.bestHashOk && turn.head.Some? && turn.head.value - block >= confirmations
    && forall i :: 0 <= i < |turn.handlerOk| ==> turn.handlerOk[i]
  }

  /** The block waited for after a number of turns: it moves on with every turn that finishes it, and only then. */
  function BlockAfter(start: Option<int>, confirmations: int, turns: seq<Turn>): Option<int> {
    if turns == [] then start
    else
      var last := turns[|turns| - 1];
      match FirstBlock(BlockAfter(start, confirmations, turns[..|turns| - 1]), [last])
      case None => None
      case Some(block) => Some(if Finishes(last, block, confirmations) then block + 1 else block)
  }

  /** One pass over the handlers for a block, cut short by the first failure. */
  method HandleBlock(log: seq<Entry>, block: int, head: int, handlerOk: seq<bool>,
                     ghost first: int, ghost confirmations: int)
    returns (log': seq<Entry>, allOk: bool)
    requires GoodLog(log, first, |handlerOk|, confirmations)
    requires block == first + Finished(log) && head - block >= confirmations
    ensures GoodLog(log', first, |handlerOk|, confirmations) && Finished(log') == Finished(log)
    ensures log <= log'
    ensures allOk <==> forall i :: 0 <= i < |handlerOk| ==> handlerOk[i]
    ensures allOk && handlerOk != [] ==> Follows(log', |log'|, |handlerOk| - 1, block)
  {
    log' := log;
    for i := 0 to |handlerOk|
      invariant GoodLog(log', first, |handlerOk|, confirmations) && Finished(log') == Finished(log) && log <= log'
      invariant i > 0 ==> Follows(log', |log'|, i - 1, block) && log'[|log'| - 1].head == head
      invariant forall j :: 0 <= j < i ==> handlerOk[j]
    {
      var e := Handled(block, i, head, handlerOk[i]);
      assert (log' + [e])[..|log'|] == log';
      AppendEntry(log', e, first, |handlerOk|, confirmations);
      log' := log' + [e];
      if !handlerOk[i] {
        return log', false;
      }
    }
    return log', true;
  }

  /**
   The listening loop over any number of turns. Its log is good, it starts at the configured block or
   the first head read, and the block it is waiting for is the first one not finished.
   */
  method ListenToEvents(start: Option<int>, confirmations: int, handlers: nat, turns: seq<Turn>)
    returns (log: seq<Entry>, current: Option<int>)
    requires forall i :: 0 <= i < |turns| ==> |turns[i].handlerOk| == handlers
    ensures current == BlockAfter(start, confirmations, turns)
    ensures FirstBlock(start, turns) == None ==> log == [] && current == None
    ensures FirstBlock(start, turns).Some? ==>
              && GoodLog(log, FirstBlock(start, turns).value, handlers, confirmations)
              && current == Some(FirstBlock(start, turns).value + Finished(log))
  {
    log := [];
    var startBlock := start;
    for i := 0 to |turns|
      invariant startBlock == BlockAfter(start, confirmations, turns[..i])
      invariant startBlock == None <==> FirstBlock(start, turns[..i]) == None
      invariant startBlock == None ==> log == []
      invariant startBlock.Some? ==>
                  && GoodLog(log, FirstBlock(start, turns[..i]).value, handlers, confirmations)
                  && startBlock.value == FirstBlock(start, turns[..i]).value + Finished(log)
    {
      assert turns[..i + 1][..i] == turns[..i];
      ghost var first := FirstBlock(start, turns[..i + 1]);
      assert [turns[i]][..0] == [];
      if !turns[i].bestHashOk || turns[i].head == None {
        continue;
      }
      var head := turns[i].head.value;
      if startBlock == None {
        startBlock := Some(head);
      }
      if head - startBlock.value < confirmations {
        continue;
      }
      var allOk;
      log, allOk := HandleBlock(log, startBlock.value, head, turns[i].handlerOk, first.value, confirmations);
      if !allOk {
        continue;
      }
      var e := Stored(startBlock.value, turns[i].storeOk);
      assert (log + [e])[..|log|] == log;
      AppendEntry(log, e, first.value, handlers, confirmations);
      log := log + [e];
      startBlock := Some(startBlock.value + 1);
    }
    assert turns[..|turns|] == turns;
    current := startBlock;
  }

  /** Storing is attempted once per block, in ascending order without gaps, up to the current block. */
  lemma {:induction false} StoresAreConsecutive(log: seq<Entry>, first: int, handlers: nat, confirmations: int)
    requires GoodLog(log, first, handlers, confirmations)
    ensures |StoredBlocks(log)| == Finished(log)
    ensures forall k :: 0 <= k < Finished(log) ==> StoredBlocks(log)[k] == first + k
  {
    if log != [] {
      var front := log[..|log| - 1];
      GoodPrefix(log, |front|, first, handlers, confirmations);
      StoresAreConsecutive(front, first, handlers, confirmations);
      assert GoodEntry(log, |front|, first, handlers, confirmations);
    }
  }

  lemma GoodPrefix(log: seq<Entry>, n: nat, first: int, handlers: nat, confirmations: int)
    requires GoodLog(log, first, handlers, confirmations) && n <= |log|
    ensures GoodLog(log[..n], first, handlers, confirmations)
  {
    forall p | 0 <= p < n ensures GoodEntry(log[..n], p, first, handlers, confirmations) {
      assert GoodEntry(log, p, first, handlers, confirmations);
      assert log[..n][..p] == log[..p];
    }
  }

  /** Before a block is stored every handler has succeeded on it, in handler order, in one uninterrupted pass. */
  lemma {:induction false} StoredBlocksWereHandled(log: seq<Entry>, p: nat, first: int, handlers: nat,
                                                   confirmations: int, j: nat)
    requires GoodLog(log, first, handlers, confirmations) && p < |log| && log[p].Stored? && j < handlers
    ensures p >= handlers - j
    ensures var e := log[p - (handlers - j)]; e.Handled? && e.handler == j && e.block == log[p].block && e.ok
    decreases handlers - j
  {
    assert GoodEntry(log, p, first, handlers, confirmations);
    if j < handlers - 1 {
      StoredBlocksWereHandled(log, p, first, handlers, confirmations, j + 1);
      assert GoodEntry(log, p - (handlers - (j + 1)), first, handlers, confirmations);
    }
  }

  predicate Readable(turn: Turn) {
    turn.bestHashOk && turn.head.Some?
  }

  /** Without a configured block the first head that can be read is where listening starts. */
  lemma {:induction false} StartsAtFirstHead(turns: seq<Turn>, i: nat)
    requires i < |turns| && Readable(turns[i]) && forall j :: 0 <= j < i ==> !Readable(turns[j])
    ensures FirstBlock(None, turns) == turns[i].head
    decreases |turns|
  {
    if i < |turns| - 1 {
      StartsAtFirstHead(turns[..|turns| - 1], i);
    } else {
      NoHeadYet(turns[..i]);
    }
  }

  lemma {:induction false} NoHeadYet(turns: seq<Turn>)
    requires forall j :: 0 <= j < |turns| ==> !Readable(turns[j])
    ensures FirstBlock(None, turns) == None
  {
    if turns != [] {
      NoHeadYet(turns[..|turns| - 1]);
    }
  }

  /** One more turn moves on to the next block exactly with enough confirmations and all handlers succeeding. */
  lemma MovesOnIff(start: Option<int>, confirmations: int, turns: seq<Turn>, turn: Turn, block: int)
    requires BlockAfter(start, confirmations, turns) == Some(block)
    ensures BlockAfter(start, confirmations, turns + [turn]) in {Some(block), Some(block + 1)}
    ensures BlockAfter(start, confirmations, turns + [turn]) == Some(block + 1) <==>
              Readable(turn) && turn.head.value >= block + confirmations && false !in turn.handlerOk
  {
    assert (turns + [turn])[..|turns|] == turns && [turn][..0] == [];
  }
}
