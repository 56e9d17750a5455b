/** The consumer side of the scanner: the `Dirs` cache of known paths and
    its read cursor.

    The background walk and the unbuffered channel it sends on are modelled
    by `Channel`: the whole sequence the walk will ever send, fixed up front,
    and how many values have been received so far. Receiving takes the next
    value, or reports end-of-stream once the walk is over (the channel is
    closed). Only the order of values matters to the consumer, so the
    rendezvous itself is not modelled. */
module Scanner {
  import Walk

  datatype Channel = Channel(produced: seq<string>, pulled: nat)

  /** What `path, ok := <-scan` yields, with the channel afterwards. */
  datatype Received = Received(scan: Channel, path: string, ok: bool)

  function Receive(c: Channel): (r: Received)
    // Values arrive in the order the walk sends them, each exactly once.
    ensures r.scan.produced == c.produced
    ensures r.ok <==> c.pulled < |c.produced|
    ensures r.ok ==> r.scan.pulled == c.pulled + 1 && r.path == c.produced[c.pulled]
    // Once the walk is over, every receive reports the end and changes nothing.
    ensures !r.ok ==> r.scan == c && r.path == ""
  {
    if c.pulled < |c.produced| then
      Received(c.(pulled := c.pulled + 1), c.produced[c.pulled], true)
    else
      Received(c, "", false)
  }

  /** The scanner state: the channel, the cache of paths received so far,
      and the cursor of the next `Next` call. */
  datatype Dirs = Dirs(scan: Channel, paths: seq<string>, offset: nat)

  /** The result of `Next`: the state afterwards and the returned pair. */
  datatype Step = Step(dirs: Dirs, path: string, ok: bool)

  /** The state invariant: the cache is exactly what has been received, which
      is a prefix of what the walk sends, and the cursor lies within the
      cache. */
  ghost predicate Valid(d: Dirs) {
    && d.scan.pulled <= |d.scan.produced|
    && d.paths == d.scan.produced[..d.scan.pulled]
    && d.offset <= |d.paths|
  }

  /** The state right after start-up: nothing received, cursor at zero. */
  function Init(produced: seq<string>): (d: Dirs)
    ensures Valid(d)
    ensures d.offset == 0 && d.paths == []
    ensures d.scan.produced == produced
  {
    Dirs(Channel(produced, 0), [], 0)
  }

  /** The process-wide scanner, whose walk covers GOROOT and then every
      GOPATH root. */
  function Startup(goroot: Walk.Root, gopath: seq<Walk.Root>): (d: Dirs)
    ensures Valid(d)
    ensures d.scan.produced == Walk.Produced(goroot, gopath)
  {
    Init(Walk.Produced(goroot, gopath))
  }

  /** Puts the scan back at the beginning; nothing else changes. */
  function Reset(d: Dirs): (r: Dirs)
    ensures r.offset == 0
    ensures r.paths == d.paths && r.scan == d.scan
    ensures Valid(d) ==> Valid(r)
  {
    d.(offset := 0)
  }

  /** What the `k`-th call of a pass returns: the `k`-th path the walk
      sends, or the empty path and false once the walk has nothing more. */
  function Expected(produced: seq<string>, k: nat): (string, bool) {
    if k < |produced| then (produced[k], true) else ("", false)
  }

  /** Returns the next directory of the scan, from the cache when the cursor
      is inside it, otherwise by receiving one more value from the walk. */
  function Next(d: Dirs): (r: Step)
    // A cache hit does not touch the channel and does not grow the cache.
    ensures d.offset < |d.paths| ==>
      r == Step(d.(offset := d.offset + 1), d.paths[d.offset], true)
    // The cache is append-only and grows by at most the received value.
    ensures r.dirs.scan.produced == d.scan.produced
    ensures d.paths <= r.dirs.paths
    ensures r.dirs.paths == d.paths || (r.ok && r.dirs.paths == d.paths + [r.path])
    // Against the invariant: the call returns what the cursor points at in
    // the walk's output, and at end-of-stream changes nothing at all.
    ensures Valid(d) ==> Valid(r.dirs) && r.dirs.scan.produced == d.scan.produced
    ensures Valid(d) ==> (r.path, r.ok) == Expected(d.scan.produced, d.offset)
    ensures Valid(d) && r.ok ==> r.dirs.offset == d.offset + 1
    ensures Valid(d) && !r.ok ==> r.dirs == d
  {
    if d.offset < |d.paths| then
      Step(d.(offset := d.offset + 1), d.paths[d.offset], true)
    else
      var got := Receive(d.scan);
      if !got.ok then
        Step(d.(scan := got.scan), "", false)
      else
        Step(Dirs(got.scan, d.paths + [got.path], d.offset + 1), got.path, true)
  }

  /** `k` successive calls of `Next`: the final state and the returned pairs. */
  function Nexts(d: Dirs, k: nat): (r: (Dirs, seq<(string, bool)>))
    ensures |r.1| == k
    ensures r.0.scan.produced == d.scan.produced
    ensures d.paths <= r.0.paths
    decreases k
  {
    if k == 0 then (d, [])
    else
      var step := Next(d);
      var rest := Nexts(step.dirs, k - 1);
      (rest.0, [(step.path, step.ok)] + rest.1)
  }

  datatype Op = ResetOp | NextOp

  /** Any interleaving of `Reset` and `Next` calls. */
  function Run(d: Dirs, ops: seq<Op>): Dirs
    decreases |ops|
  {
    if ops == [] then d
    else
      var d' := if ops[0] == ResetOp then Reset(d) else Next(d).dirs;
      Run(d', ops[1..])
  }

  /** The pairs `k` calls return from cursor `j` on. */
  function ExpectedRun(produced: seq<string>, j: nat, k: nat): (r: seq<(string, bool)>)
    ensures |r| == k
    decreases k
  {
    if k == 0 then [] else [Expected(produced, j)] + ExpectedRun(produced, j + 1, k - 1)
  }

  lemma {:induction false} ExpectedRunIndex(produced: seq<string>, j: nat, k: nat, i: nat)
    requires i < k
    ensures ExpectedRun(produced, j, k)[i] == Expected(produced, j + i)
    decreases k
  {
    if i > 0 {
      ExpectedRunIndex(produced, j + 1, k - 1, i - 1);
    }
  }

  /** Past the end of the walk's output, the cursor position no longer
      matters. */
  lemma {:induction false} ExpectedRunPastEnd(produced: seq<string>, j: nat, k: nat)
    requires j >= |produced|
    ensures ExpectedRun(produced, j, k) == ExpectedRun(produced, j + 1, k)
    decreases k
  {
    if k > 0 {
      ExpectedRunPastEnd(produced, j + 1, k - 1);
    }
  }

  /** One call of `Next` from a valid state, as the cursor abstraction sees
      it. */
  lemma NextFollowsCursor(d: Dirs)
    requires Valid(d)
    ensures Valid(Next(d).dirs)
    ensures Next(d).dirs.scan.produced == d.scan.produced
    ensures (Next(d).path, Next(d).ok) == Expected(d.scan.produced, d.offset)
    ensures Next(d).dirs.offset == if Next(d).ok then d.offset + 1 else d.offset
  {
  }

  /** From any valid state, `k` successive calls return exactly the walk's
      output from the cursor on, padded with end-of-stream results. */
  lemma {:induction false} NextsFollowRun(d: Dirs, k: nat)
    requires Valid(d)
    ensures Valid(Nexts(d, k).0)
    ensures Nexts(d, k).0.scan.produced == d.scan.produced
    ensures Nexts(d, k).1 == ExpectedRun(d.scan.produced, d.offset, k)
    decreases k
  {
    if k > 0 {
      var produced := d.scan.produced;
      var step := Next(d);
      NextFollowsCursor(d);
      NextsFollowRun(step.dirs, k - 1);
      assert Nexts(d, k).1 == [(step.path, step.ok)] + Nexts(step.dirs, k - 1).1;
      if !step.ok {
        ExpectedRunPastEnd(produced, d.offset, k - 1);
      }
    }
  }

  /** From any valid state, successive calls follow the walk's output from
      the cursor on, and then keep reporting the end. */
  lemma NextsFollowCursor(d: Dirs, k: nat)
    requires Valid(d)
    ensures Valid(Nexts(d, k).0)
    ensures Nexts(d, k).0.scan.produced == d.scan.produced
    ensures forall i :: 0 <= i < k ==> Nexts(d, k).1[i] == Expected(d.scan.produced, d.offset + i)
  {
    NextsFollowRun(d, k);
    forall i | 0 <= i < k
      ensures Nexts(d, k).1[i] == Expected(d.scan.produced, d.offset + i)
    {
      ExpectedRunIndex(d.scan.produced, d.offset, k, i);
    }
  }

  /** The invariant holds in every state reachable from start-up, whatever
      the interleaving of calls; the walk's output never changes. */
  lemma {:induction false} RunKeepsValid(d: Dirs, ops: seq<Op>)
    requires Valid(d)
    ensures Valid(Run(d, ops))
    ensures Run(d, ops).scan.produced == d.scan.produced
    decreases |ops|
  {
    if ops != [] {
      var d' := if ops[0] == ResetOp then Reset(d) else Next(d).dirs;
      RunKeepsValid(d', ops[1..]);
    }
  }

  /** Replay: after any history of calls, the `i`-th `Next` following a
      `Reset` returns the `i`-th path the walk sends, so every pass sees the
      same sequence. */
  lemma Replay(produced: seq<string>, ops: seq<Op>, k: nat)
    ensures forall i :: 0 <= i < k ==>
      Nexts(Reset(Run(Init(produced), ops)), k).1[i] == Expected(produced, i)
  {
    RunKeepsValid(Init(produced), ops);
    NextsFollowCursor(Reset(Run(Init(produced), ops)), k);
  }

  /** For the process-wide scanner, every pass delivers the breadth-first
      walk of GOROOT followed by that of each GOPATH root. */
  lemma StartupReplaysWalk(goroot: Walk.Root, gopath: seq<Walk.Root>, ops: seq<Op>, k: nat)
    ensures forall i :: 0 <= i < k ==>
      Nexts(Reset(Run(Startup(goroot, gopath), ops)), k).1[i]
        == Expected(Walk.Produced(goroot, gopath), i)
  {
    Replay(Walk.Produced(goroot, gopath), ops, k);
  }

  /** Past end-of-stream, any number of calls return the empty path and
      false and leave the state exactly as it was. */
  lemma {:induction false} ExhaustedIsStable(d: Dirs, k: nat)
    requires Valid(d) && d.offset == |d.scan.produced|
    ensures Nexts(d, k).0 == d
    ensures forall i :: 0 <= i < k ==> Nexts(d, k).1[i] == ("", false)
    decreases k
  {
    if k > 0 {
      ExhaustedIsStable(Next(d).dirs, k - 1);
    }
  }

  /** Once the walk has been received in full, later passes are served from
      the cache alone: no later call takes a value from the channel or
      changes the cache (a call at end-of-stream still receives, but only
      learns that the channel is closed). */
  lemma {:induction false} CachedPassesReadNothing(d: Dirs, ops: seq<Op>)
    requires Valid(d) && d.scan.pulled == |d.scan.produced|
    ensures Run(d, ops).scan == d.scan
    ensures Run(d, ops).paths == d.paths
    decreases |ops|
  {
    if ops != [] {
      var d' := if ops[0] == ResetOp then Reset(d) else Next(d).dirs;
      CachedPassesReadNothing(d', ops[1..]);
    }
  }
}
