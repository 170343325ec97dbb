/**
 * Draining without loss. Redis runs the counter commands of all concurrent
 * `incr` and `process` calls one after another; whatever that interleaving,
 * every amount added to a counter is read by exactly one GETSET-to-0: the
 * first one after it.
 */
module Trace {
  import opened Store

  /** What the GETSET commands on `key` read, in order, an absent counter as 0. */
  function Drained(counters: map<string, int>, cmds: seq<Command>, key: string): seq<int>
    decreases |cmds|
  {
    if |cmds| == 0 then []
    else
      var init, last := cmds[..|cmds| - 1], cmds[|cmds| - 1];
      Drained(counters, init, key) + (if last.GetSetCmd? && last.key == key then [Count(Run(counters, init), key)] else [])
  }

  function Sum(s: seq<int>): int
    decreases |s|
  {
    if |s| == 0 then 0 else Sum(s[..|s| - 1]) + s[|s| - 1]
  }

  /** The only commands on `key` are INCRBY and GETSET to 0, as for a counter
      key of the buffer (no DEL ever names one). */
  ghost predicate DrainsToZero(cmds: seq<Command>, key: string)
  {
    forall i :: 0 <= i < |cmds| && cmds[i].key == key ==> cmds[i].IncrByCmd? || cmds[i] == GetSetCmd(key, 0)
  }

  /** Nothing is lost and nothing is read twice: what a counter held, plus
      every amount added to it, is what the GETSETs read plus what it holds
      at the end. */
  lemma {:induction false} ZeroLoss(counters: map<string, int>, cmds: seq<Command>, key: string)
    requires DrainsToZero(cmds, key)
    ensures Count(counters, key) + Added(cmds, key) == Sum(Drained(counters, cmds, key)) + Count(Run(counters, cmds), key)
    decreases |cmds|
  {
    if |cmds| > 0 {
      var init, last := cmds[..|cmds| - 1], cmds[|cmds| - 1];
      assert DrainsToZero(init, key) by {
        forall i | 0 <= i < |init| && init[i].key == key ensures init[i].IncrByCmd? || init[i] == GetSetCmd(key, 0) {
          assert init[i] == cmds[i];
        }
      }
      ZeroLoss(counters, init, key);
      var d := Drained(counters, init, key);
      if last.GetSetCmd? && last.key == key {
        var r := [Count(Run(counters, init), key)];
        assert Drained(counters, cmds, key) == d + r;
        assert (d + r)[..|d + r| - 1] == d;
      } else {
        assert Drained(counters, cmds, key) == d;
      }
    }
  }

  lemma {:induction false} RunAppend(counters: map<string, int>, s: seq<Command>, t: seq<Command>, key: string)
    ensures Run(counters, s + t) == Run(Run(counters, s), t)
    ensures Drained(counters, s + t, key) == Drained(counters, s, key) + Drained(Run(counters, s), t, key)
    decreases |t|
  {
    if |t| == 0 {
      assert s + t == s;
    } else {
      var init, last := t[..|t| - 1], t[|t| - 1];
      RunAppend(counters, s, init, key);
      assert (s + t)[..|s + t| - 1] == s + init;
      assert (s + t)[|s + t| - 1] == last;
    }
  }

  /** Two GETSETs to 0 of a counter with only INCRBYs between them: the first
      reads what the counter held, the second exactly the amounts added in
      between. */
  lemma FlushCapturesSinceLastFlush(counters: map<string, int>, between: seq<Command>, key: string)
    requires forall i :: 0 <= i < |between| && between[i].key == key ==> between[i].IncrByCmd?
    ensures Drained(counters, [GetSetCmd(key, 0)] + between + [GetSetCmd(key, 0)], key) == [Count(counters, key), Added(between, key)]
  {
    var flush := [GetSetCmd(key, 0)];
    assert Run(counters, flush) == counters[key := 0] by { assert flush[..0] == []; }
    assert Drained(counters, flush, key) == [Count(counters, key)] by { assert flush[..0] == []; }
    var drained := Run(counters, flush);
    NoFlushNoRead(drained, between, key);
    ZeroLoss(drained, between, key);
    RunAppend(counters, flush, between, key);
    var afterBetween := Run(drained, between);
    assert Run(afterBetween, flush) == afterBetween[key := 0] by { assert flush[..0] == []; }
    assert Drained(afterBetween, flush, key) == [Count(afterBetween, key)] by { assert flush[..0] == []; }
    RunAppend(counters, flush + between, flush, key);
  }

  lemma {:induction false} NoFlushNoRead(counters: map<string, int>, cmds: seq<Command>, key: string)
    requires forall i :: 0 <= i < |cmds| && cmds[i].key == key ==> cmds[i].IncrByCmd?
    ensures Drained(counters, cmds, key) == []
    decreases |cmds|
  {
    if |cmds| > 0 {
      var init := cmds[..|cmds| - 1];
      forall i | 0 <= i < |init| && init[i].key == key ensures init[i].IncrByCmd? {
        assert init[i] == cmds[i];
      }
      NoFlushNoRead(counters, init, key);
    }
  }
}
