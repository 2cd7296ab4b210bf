/** The frames captures travel in (src/codec-pipeline.cpp): a fixed pool of them, passed between the graphics thread,
    the encode queue and the workers. One method for each locked section. */
module RawPool {
  import opened Words

  datatype EncodeJob = EncodeJob(frame: nat, epoch: nat)

  function Frames(jobs: seq<EncodeJob>): (frames: seq<nat>)
    ensures |frames| == |jobs|
  {
    seq(|jobs|, i requires 0 <= i < |jobs| => jobs[i].frame)
  }

  /** Frames 0, 1, ..., n - 1, each once. */
  function Each(n: nat): (frames: multiset<nat>)
    ensures |frames| == n
    ensures forall f: nat :: frames[f] == if f < n then 1 else 0
  {
    if n == 0 then multiset{} else Each(n - 1) + multiset{n - 1}
  }

  lemma FramesAppend(jobs: seq<EncodeJob>, job: EncodeJob)
    ensures multiset(Frames(jobs + [job])) == multiset(Frames(jobs)) + multiset{job.frame}
  {
    assert Frames(jobs + [job]) == Frames(jobs) + [job.frame];
  }

  lemma FramesFront(jobs: seq<EncodeJob>)
    requires jobs != []
    ensures multiset(Frames(jobs)) == multiset{jobs[0].frame} + multiset(Frames(jobs[1..]))
  {
    assert Frames(jobs) == [jobs[0].frame] + Frames(jobs[1..]);
  }

  /** Every frame is in exactly one place: the pool, the queue, the graphics thread's hands, a worker's. */
  ghost predicate Conserved(free: seq<nat>, queue: seq<EncodeJob>, graphics: multiset<nat>, atWork: multiset<nat>, count: nat) {
    multiset(free) + multiset(Frames(queue)) + graphics + atWork == Each(count)
  }

  lemma Acquired(free: seq<nat>, queue: seq<EncodeJob>, graphics: multiset<nat>, atWork: multiset<nat>, count: nat)
    requires free != [] && Conserved(free, queue, graphics, atWork, count)
    ensures var last := |free| - 1; Conserved(free[..last], queue, graphics + multiset{free[last]}, atWork, count)
  {
    assert free == free[..|free| - 1] + [free[|free| - 1]];
  }

  lemma Submitted(free: seq<nat>, queue: seq<EncodeJob>, graphics: multiset<nat>, atWork: multiset<nat>, count: nat, job: EncodeJob)
    requires job.frame in graphics && Conserved(free, queue, graphics, atWork, count)
    ensures Conserved(free, queue + [job], graphics - multiset{job.frame}, atWork, count)
  {
    FramesAppend(queue, job);
  }

  lemma Taken(free: seq<nat>, queue: seq<EncodeJob>, graphics: multiset<nat>, atWork: multiset<nat>, count: nat)
    requires queue != [] && Conserved(free, queue, graphics, atWork, count)
    ensures Conserved(free, queue[1..], graphics, atWork + multiset{queue[0].frame}, count)
  {
    FramesFront(queue);
  }

  lemma Released(free: seq<nat>, queue: seq<EncodeJob>, graphics: multiset<nat>, atWork: multiset<nat>, count: nat, f: nat)
    requires Conserved(free, queue, graphics, atWork, count)
    ensures f in graphics ==> Conserved(free + [f], queue, graphics - multiset{f}, atWork, count)
    ensures f in atWork ==> Conserved(free + [f], queue, graphics, atWork - multiset{f}, count)
  {
  }

  /** A frame is nowhere else than where it is, and no more jobs wait than the pool has frames. */
  lemma OnePlaceEach(free: seq<nat>, queue: seq<EncodeJob>, graphics: multiset<nat>, atWork: multiset<nat>, count: nat, f: nat)
    requires Conserved(free, queue, graphics, atWork, count)
    ensures multiset(free)[f] + multiset(Frames(queue))[f] + graphics[f] + atWork[f] == if f < count then 1 else 0
    ensures |free| + |queue| + |graphics| + |atWork| == count
  {
    assert Each(count)[f] == if f < count then 1 else 0;
  }

  class Pool {
    const count: nat
    var free: seq<nat>
    var queue: seq<EncodeJob>
    var epoch: nat
    /** The frames the graphics thread holds, and those of jobs being encoded. */
    ghost var graphics: multiset<nat>
    ghost var atWork: multiset<nat>

    ghost predicate Valid()
      reads this
    {
      Conserved(free, queue, graphics, atWork, count)
    }

    constructor (count: nat)
      ensures Valid() && this.count == count && |free| == count && queue == []
      ensures graphics == multiset{} && atWork == multiset{}
    {
      this.count := count;
      queue, epoch := [], 1;
      graphics, atWork := multiset{}, multiset{};
      var all: seq<nat> := [];
      var i := 0;
      while i < count
        invariant 0 <= i <= count && multiset(all) == Each(i) && |all| == i
      {
        all := all + [i];
        i := i + 1;
      }
      free := all;
    }

    /** Nothing when every frame is out, or when the one returned last has too little storage and gets no more. */
    method AcquireRawFrame(hasRoom: nat -> bool) returns (frame: Option<nat>)
      requires Valid()
      modifies this`free, this`graphics
      ensures Valid()
      ensures frame.Some? <==> old(free) != [] && hasRoom(old(free)[|old(free)| - 1])
      ensures frame.Some? ==> old(free) == free + [frame.value] && graphics == old(graphics) + multiset{frame.value}
      ensures frame.None? ==> free == old(free) && graphics == old(graphics)
    {
      if free == [] {
        return None;
      }
      hide Conserved;
      Acquired(free, queue, graphics, atWork, count);
      var last := free[|free| - 1];
      free := free[..|free| - 1];
      graphics := graphics + multiset{last};
      if !hasRoom(last) {
        ReleaseRawFrame(last);
        return None;
      }
      frame := Some(last);
    }

    method ReleaseRawFrame(frame: nat)
      requires Valid() && frame in graphics
      modifies this`free, this`graphics
      ensures Valid() && free == old(free) + [frame] && graphics == old(graphics) - multiset{frame}
    {
      hide Conserved;
      Released(free, queue, graphics, atWork, count, frame);
      free := free + [frame];
      graphics := graphics - multiset{frame};
    }

    method SubmitEncode(frame: nat)
      requires Valid() && frame in graphics
      modifies this`queue, this`graphics
      ensures Valid() && queue == old(queue) + [EncodeJob(frame, epoch)] && graphics == old(graphics) - multiset{frame}
      ensures |queue| <= count
    {
      hide Conserved;
      Submitted(free, queue, graphics, atWork, count, EncodeJob(frame, epoch));
      queue := queue + [EncodeJob(frame, epoch)];
      graphics := graphics - multiset{frame};
      OnePlaceEach(free, queue, graphics, atWork, count, frame);
    }

    /** Jobs leave the queue in the order they came. */
    method TakeJob() returns (job: EncodeJob)
      requires Valid() && queue != []
      modifies this`queue, this`atWork
      ensures Valid() && old(queue) == [job] + queue && atWork == old(atWork) + multiset{job.frame}
    {
      hide Conserved;
      Taken(free, queue, graphics, atWork, count);
      job := queue[0];
      queue := queue[1..];
      atWork := atWork + multiset{job.frame};
    }

    method FinishJob(job: EncodeJob)
      requires Valid() && job.frame in atWork
      modifies this`free, this`atWork
      ensures Valid() && free == old(free) + [job.frame] && atWork == old(atWork) - multiset{job.frame}
    {
      hide Conserved;
      Released(free, queue, graphics, atWork, count, job.frame);
      free := free + [job.frame];
      atWork := atWork - multiset{job.frame};
    }

    /** A new epoch. Queued jobs give their frames back, oldest first; those being encoded keep theirs. */
    method Detach()
      requires Valid()
      modifies this`free, this`queue, this`epoch, this`atWork
      ensures Valid() && queue == [] && epoch == old(epoch) + 1
      ensures free == old(free) + Frames(old(queue)) && atWork == old(atWork)
    {
      hide Conserved;
      epoch := epoch + 1;
      while queue != []
        invariant Valid() && atWork == old(atWork) && epoch == old(epoch) + 1
        invariant free + Frames(queue) == old(free) + Frames(old(queue))
        decreases |queue|
      {
        assert Frames(queue) == [queue[0].frame] + Frames(queue[1..]);
        var job := TakeJob();
        FinishJob(job);
      }
    }
  }
}
