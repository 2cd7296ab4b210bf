/** Storage codecs and the bookkeeping of one bitstream (src/storage-codec.hpp). */
module Storage {
  import opened Words

  datatype CodecId = Raw | Mjpeg | H264 | Hevc

  const NO_CHAIN: U32 := 0

  predicate InterCodec(codec: CodecId) { codec.H264? || codec.Hevc? }

  /** The encode side of one chain. A value: each encode context holds its own and replaces it. */
  datatype ChainTracker = ChainTracker(chain: U32, nextSeq: nat, wantKey: bool, broken: bool) {
    /** The encoder accepted frame nextSeq. */
    function CommitSend(forcedKey: bool): ChainTracker {
      this.(nextSeq := nextSeq + 1, wantKey := wantKey && !forcedKey)
    }

    predicate ShouldStore(key: bool) { !broken || key }

    function OnStored(key: bool): ChainTracker { this.(broken := broken && !key) }

    function OnLost(): ChainTracker { this.(broken := true, wantKey := true) }

    function RequestKey(): ChainTracker { this.(wantKey := true) }
  }

  const NOT_STARTED := ChainTracker(NO_CHAIN, 0, true, false)

  function StartChain(chain: U32): ChainTracker { ChainTracker(chain, 0, true, false) }

  datatype Entry<T> = Entry(seqNo: nat, submitNs: nat, value: T)

  function Changed<T>(entries: seq<Entry<T>>, change: T -> T): seq<Entry<T>> {
    seq(|entries|, i requires 0 <= i < |entries| => entries[i].(value := change(entries[i].value)))
  }

  datatype Match = MatchOk | MatchEmpty | Mismatch

  /** Frames sent to an encoder and not received yet, oldest first: a ring of entries that only grows. */
  class InFlightQueue<T(0)> {
    var entries: array<Entry<T>>
    var head: nat
    var size: nat

    ghost predicate Valid()
      reads this, entries
    {
      size <= entries.Length && (head < entries.Length || (head == 0 && entries.Length == 0))
    }

    /** Where the i-th oldest entry is kept. */
    function Slot(i: nat): (at: nat)
      requires Valid() && i < entries.Length
      reads this, entries
      ensures at < entries.Length
    {
      if head + i < entries.Length then head + i else head + i - entries.Length
    }

    function Contents(): (s: seq<Entry<T>>)
      requires Valid()
      reads this, entries
      ensures |s| == size && forall i :: 0 <= i < size ==> s[i] == entries[Slot(i)]
    {
      seq(size, i requires Valid() && 0 <= i < size reads this, entries => entries[Slot(i)])
    }

    constructor ()
      ensures Valid() && Contents() == [] && fresh(entries)
    {
      entries := new Entry<T>[0];
      head, size := 0, 0;
    }

    lemma SlotIsRemainder(i: nat)
      requires Valid() && i < entries.Length
      ensures (head + i) % entries.Length == Slot(i)
    {
      WrapOnce(head + i, entries.Length);
    }

    method Push(seqNo: nat, submitNs: nat, value: T)
      requires Valid()
      modifies this, entries
      ensures Valid() && Contents() == old(Contents()) + [Entry(seqNo, submitNs, value)]
      ensures entries == old(entries) || fresh(entries)
    {
      if size == entries.Length {
        Grow();
      }
      SlotIsRemainder(size);
      ghost var before := Contents();
      var at := (head + size) % entries.Length;
      entries[at] := Entry(seqNo, submitNs, value);
      size := size + 1;
      assert Contents()[..size - 1] == before;
    }

    /** Accepts only the packet of the oldest frame in flight; anything else leaves the queue as it is. */
    method Pop(seqNo: nat) returns (match_: Match, out: Option<Entry<T>>)
      requires Valid()
      modifies this, entries
      ensures Valid() && entries == old(entries)
      ensures match_.MatchEmpty? <==> old(Contents()) == []
      ensures match_.Mismatch? <==> old(Contents()) != [] && old(Contents())[0].seqNo != seqNo
      ensures match_.MatchOk? ==> out == Some(old(Contents())[0]) && Contents() == old(Contents())[1..]
      ensures !match_.MatchOk? ==> out == None && Contents() == old(Contents())
    {
      if size == 0 {
        return MatchEmpty, None;
      }
      if entries[head].seqNo != seqNo {
        return Mismatch, None;
      }
      var entry := TakeFront();
      return MatchOk, Some(entry);
    }

    method TakeFront() returns (entry: Entry<T>)
      requires Valid() && size > 0
      modifies this, entries
      ensures Valid() && entries == old(entries)
      ensures entry == old(Contents())[0] && Contents() == old(Contents())[1..]
    {
      ghost var before := Contents();
      entry := entries[head];
      var blank: T := *;
      entries[head] := Entry(0, 0, blank);
      WrapOnce(head + 1, entries.Length);
      head := (head + 1) % entries.Length;
      size := size - 1;
      forall i | 0 <= i < size
        ensures Contents()[i] == before[i + 1]
      {
      }
    }

    method Grow()
      requires Valid() && size == entries.Length
      modifies this
      ensures Valid() && fresh(entries) && size < entries.Length && size == old(size)
      ensures Contents() == old(Contents())
    {
      var blank: T := *;
      var grown := new Entry<T>[Max(4, 2 * entries.Length)](_ => Entry(0, 0, blank));
      var i := 0;
      while i < size
        invariant 0 <= i <= size == old(size) && Valid() && entries == old(entries) && head == old(head)
        invariant forall k :: 0 <= k < i ==> grown[k] == old(Contents())[k]
        invariant Contents() == old(Contents())
      {
        SlotIsRemainder(i);
        grown[i] := entries[(head + i) % entries.Length];
        i := i + 1;
      }
      entries := grown;
      head := 0;
      assert Contents() == old(Contents());
    }

    /** Changes every value in flight in place. */
    method ForEach(change: T -> T)
      requires Valid()
      modifies entries
      ensures Valid() && Contents() == Changed(old(Contents()), change)
    {
      var i := 0;
      while i < size
        invariant 0 <= i <= size && Valid()
        invariant forall k :: 0 <= k < size ==>
                    Contents()[k] == if k < i then Changed(old(Contents()), change)[k] else old(Contents())[k]
      {
        SlotIsRemainder(i);
        var at := (head + i) % entries.Length;
        ghost var before := Contents();
        entries[at] := entries[at].(value := change(entries[at].value));
        assert forall k :: 0 <= k < size && k != i ==> Contents()[k] == before[k];
        i := i + 1;
      }
    }

    method Clear() returns (dropped: seq<Entry<T>>)
      requires Valid()
      modifies this, entries
      ensures Valid() && entries == old(entries) && Contents() == [] && dropped == old(Contents())
    {
      hide InFlightQueue<T>.Contents;
      dropped := [];
      while size > 0
        invariant Valid() && entries == old(entries)
        invariant dropped + Contents() == old(Contents())
        decreases size
      {
        var entry := TakeFront();
        dropped := dropped + [entry];
      }
    }
  }
}
