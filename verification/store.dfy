/**
 * The part of Redis the buffer relies on: integer counters (INCRBY, GETSET),
 * hashes of byte strings (HSET, HGETALL) and DEL. One Redis keyspace holds
 * both kinds of value; here they are two maps over the same key names, and DEL
 * removes a key from both. Absent counters read as 0 and absent hashes as
 * empty, as Redis replies for missing keys.
 *
 * Redis runs commands one at a time, so what a sequence of counter commands
 * does is the fold `Run` of the effect `Exec` of each command.
 */
module Store {
  import opened Wrappers

  newtype byte = x: int | 0 <= x < 256

  /** A Redis byte string. */
  type Bytes = seq<byte>

  /** The reply of GETSET for a counter: its integer, or nil when absent. */
  function Lookup(counters: map<string, int>, key: string): Option<int>
  {
    if key in counters then Some(counters[key]) else None
  }

  /** The integer a counter holds, an absent counter counting as 0. */
  function Count(counters: map<string, int>, key: string): int
  {
    Lookup(counters, key).GetOr(0)
  }

  /** The reply of HGETALL: the fields of a hash, empty when absent. */
  function HashAt(hashes: map<string, map<string, Bytes>>, key: string): map<string, Bytes>
  {
    if key in hashes then hashes[key] else map[]
  }

  /** HSET of every field of `fields` in the hash at `key`; Redis never keeps
      an empty hash, so no fields leaves the store as it was. */
  function HSetAll(hashes: map<string, map<string, Bytes>>, key: string, fields: map<string, Bytes>): (r: map<string, map<string, Bytes>>)
    ensures fields != map[] ==> key in r && r[key].Keys == HashAt(hashes, key).Keys + fields.Keys
    ensures forall f :: f in fields ==> f in HashAt(r, key) && HashAt(r, key)[f] == fields[f]
    ensures forall f :: f in HashAt(hashes, key) && f !in fields ==> f in HashAt(r, key) && HashAt(r, key)[f] == HashAt(hashes, key)[f]
    ensures forall k :: k != key ==> HashAt(r, k) == HashAt(hashes, k) && (k in r <==> k in hashes)
  {
    if fields == map[] then hashes else hashes[key := HashAt(hashes, key) + fields]
  }

  lemma HSetFirst(hashes: map<string, map<string, Bytes>>, key: string, field: string, value: Bytes)
    ensures HSetAll(hashes, key, map[field := value]) == hashes[key := HashAt(hashes, key)[field := value]]
  {
    var before := HashAt(hashes, key);
    assert field in map[field := value];
    assert before + map[field := value] == before[field := value];
  }

  lemma HSetMore(hashes: map<string, map<string, Bytes>>, key: string, fields: map<string, Bytes>, field: string, value: Bytes)
    requires fields != map[]
    ensures var now := HSetAll(hashes, key, fields);
            HSetAll(hashes, key, fields[field := value]) == now[key := HashAt(now, key)[field := value]]
  {
    var before := HashAt(hashes, key);
    assert field in fields[field := value];
    assert before + fields[field := value] == (before + fields)[field := value];
  }

  /** One more HSET extends a batch of HSETs on the same hash. */
  lemma HSetStep(hashes: map<string, map<string, Bytes>>, key: string, fields: map<string, Bytes>, field: string, value: Bytes)
    ensures var now := HSetAll(hashes, key, fields);
            HSetAll(hashes, key, fields[field := value]) == now[key := HashAt(now, key)[field := value]]
  {
    if fields == map[] {
      assert fields[field := value] == map[field := value];
      HSetFirst(hashes, key, field, value);
    } else {
      HSetMore(hashes, key, fields, field, value);
    }
  }

  /** Two batches of HSETs on one hash are one batch, later fields winning. */
  lemma HSetAllCompose(hashes: map<string, map<string, Bytes>>, key: string, first: map<string, Bytes>, second: map<string, Bytes>)
    ensures HSetAll(HSetAll(hashes, key, first), key, second) == HSetAll(hashes, key, first + second)
  {
    if first == map[] {
      assert first + second == second;
    } else if second == map[] {
      assert first + second == first;
    } else {
      var before := HashAt(hashes, key);
      var mid := hashes[key := before + first];
      assert HSetAll(hashes, key, first) == mid;
      assert HashAt(mid, key) == before + first;
      assert first + second != map[] by { var f :| f in second; assert f in first + second; }
      assert (before + first) + second == before + (first + second);
      assert mid[key := (before + first) + second] == hashes[key := before + (first + second)];
    }
  }

  // ---------------------------------------------------------------------
  // Counter commands

  datatype Command = IncrByCmd(key: string, amount: int) | GetSetCmd(key: string, value: int) | DelCmd(key: string)

  /** What one command does to the counters. */
  function Exec(counters: map<string, int>, cmd: Command): map<string, int>
  {
    match cmd
    case IncrByCmd(k, a) => counters[k := Count(counters, k) + a]
    case GetSetCmd(k, v) => counters[k := v]
    case DelCmd(k) => counters - {k}
  }

  /** What a sequence of commands does to the counters, run in order. */
  function Run(counters: map<string, int>, cmds: seq<Command>): map<string, int>
    decreases |cmds|
  {
    if |cmds| == 0 then counters else Exec(Run(counters, cmds[..|cmds| - 1]), cmds[|cmds| - 1])
  }

  /** For each command of a run, what its key held just before it ran: the
      reply of a GETSET. */
  function Before(counters: map<string, int>, cmds: seq<Command>): (r: seq<Option<int>>)
    ensures |r| == |cmds|
    decreases |cmds|
  {
    if |cmds| == 0 then []
    else
      var init := cmds[..|cmds| - 1];
      Before(counters, init) + [Lookup(Run(counters, init), cmds[|cmds| - 1].key)]
  }

  lemma RunSnoc(counters: map<string, int>, cmds: seq<Command>, cmd: Command)
    ensures Run(counters, cmds + [cmd]) == Exec(Run(counters, cmds), cmd)
    ensures Before(counters, cmds + [cmd]) == Before(counters, cmds) + [Lookup(Run(counters, cmds), cmd.key)]
  {
    assert (cmds + [cmd])[..|cmds|] == cmds;
  }

  /** The sum of the INCRBY amounts on `key`. */
  function Added(cmds: seq<Command>, key: string): int
    decreases |cmds|
  {
    if |cmds| == 0 then 0
    else
      var last := cmds[|cmds| - 1];
      Added(cmds[..|cmds| - 1], key) + (if last.IncrByCmd? && last.key == key then last.amount else 0)
  }

  /** A batch of INCRBYs only, as `incr` sends. */
  ghost predicate OnlyIncrements(cmds: seq<Command>)
  {
    forall i :: 0 <= i < |cmds| ==> cmds[i].IncrByCmd?
  }

  ghost predicate Touches(cmds: seq<Command>, key: string)
  {
    exists i :: 0 <= i < |cmds| && cmds[i].key == key
  }

  /** No two commands of the batch name the same key. */
  ghost predicate DistinctKeys(cmds: seq<Command>)
  {
    forall i, j :: 0 <= i < j < |cmds| ==> cmds[i].key != cmds[j].key
  }

  /** With distinct keys, what is added to a key is its one INCRBY's amount. */
  lemma {:induction false} AddedDistinct(cmds: seq<Command>, i: int)
    requires DistinctKeys(cmds) && 0 <= i < |cmds| && cmds[i].IncrByCmd?
    ensures Added(cmds, cmds[i].key) == cmds[i].amount
    decreases |cmds|
  {
    var init := cmds[..|cmds| - 1];
    if i == |cmds| - 1 {
      assert !Touches(init, cmds[i].key) by {
        forall j | 0 <= j < |init| ensures init[j].key != cmds[i].key { assert init[j] == cmds[j]; }
      }
      AddedUntouched(init, cmds[i].key);
    } else {
      assert DistinctKeys(init) by {
        forall a, b | 0 <= a < b < |init| ensures init[a].key != init[b].key { assert init[a] == cmds[a] && init[b] == cmds[b]; }
      }
      assert init[i] == cmds[i];
      AddedDistinct(init, i);
    }
  }

  lemma {:induction false} AddedUntouched(cmds: seq<Command>, key: string)
    requires !Touches(cmds, key)
    ensures Added(cmds, key) == 0
    decreases |cmds|
  {
    if |cmds| > 0 {
      var init := cmds[..|cmds| - 1];
      assert !Touches(init, key) by {
        forall i | 0 <= i < |init| ensures init[i].key != key { assert init[i] == cmds[i]; }
      }
      AddedUntouched(init, key);
      assert cmds[|cmds| - 1].key != key;
    }
  }

  /** After a batch of INCRBYs, a counter holds what it held plus everything
      added to it, and a counter no INCRBY names is untouched. */
  lemma {:induction false} IncrementsAt(counters: map<string, int>, cmds: seq<Command>, key: string)
    requires OnlyIncrements(cmds)
    ensures Lookup(Run(counters, cmds), key) ==
            if Touches(cmds, key) then Some(Count(counters, key) + Added(cmds, key)) else Lookup(counters, key)
    decreases |cmds|
  {
    if |cmds| > 0 {
      var init, last := cmds[..|cmds| - 1], cmds[|cmds| - 1];
      assert OnlyIncrements(init) by {
        forall i | 0 <= i < |init| ensures init[i].IncrByCmd? { assert init[i] == cmds[i]; }
      }
      IncrementsAt(counters, init, key);
      assert last.IncrByCmd?;
      var prev := Run(counters, init);
      assert Run(counters, cmds) == prev[last.key := Count(prev, last.key) + last.amount];
      assert Touches(cmds, key) <==> Touches(init, key) || last.key == key by {
        if Touches(cmds, key) && last.key != key {
          var i :| 0 <= i < |cmds| && cmds[i].key == key;
          assert init[i] == cmds[i];
        }
        if Touches(init, key) {
          var i :| 0 <= i < |init| && init[i].key == key;
          assert cmds[i] == init[i];
        }
      }
      if !Touches(init, key) { AddedUntouched(init, key); }
    }
  }

  // ---------------------------------------------------------------------
  // INCRBY commands commute

  /** A batch of INCRBYs on distinct keys, as one `incr` sends: each key
      gains its command's amount, every other key is left as it was. */
  lemma IncrBatch(counters: map<string, int>, cmds: seq<Command>)
    requires OnlyIncrements(cmds) && DistinctKeys(cmds)
    ensures forall i :: 0 <= i < |cmds| ==>
              Lookup(Run(counters, cmds), cmds[i].key) == Some(Count(counters, cmds[i].key) + cmds[i].amount)
    ensures forall k :: !Touches(cmds, k) ==> Lookup(Run(counters, cmds), k) == Lookup(counters, k)
  {
    forall i | 0 <= i < |cmds|
      ensures Lookup(Run(counters, cmds), cmds[i].key) == Some(Count(counters, cmds[i].key) + cmds[i].amount)
    {
      IncrementsAt(counters, cmds, cmds[i].key);
      AddedDistinct(cmds, i);
    }
    forall k | !Touches(cmds, k) ensures Lookup(Run(counters, cmds), k) == Lookup(counters, k) {
      IncrementsAt(counters, cmds, k);
    }
  }

  /** A batch of GETSETs to 0, as one `process` sends. */
  ghost predicate OnlyResets(cmds: seq<Command>)
  {
    forall i :: 0 <= i < |cmds| ==> cmds[i].GetSetCmd? && cmds[i].value == 0
  }

  /** After a batch of GETSETs to 0, a key holds 0 if the batch named it
      and what it held before otherwise. */
  lemma {:induction false} ResetsAt(counters: map<string, int>, cmds: seq<Command>, key: string)
    requires OnlyResets(cmds)
    ensures Lookup(Run(counters, cmds), key) == if Touches(cmds, key) then Some(0) else Lookup(counters, key)
    decreases |cmds|
  {
    if |cmds| > 0 {
      var n := |cmds| - 1;
      var init := cmds[..n];
      assert OnlyResets(init) by {
        forall i | 0 <= i < n ensures init[i].GetSetCmd? && init[i].value == 0 { assert init[i] == cmds[i]; }
      }
      ResetsAt(counters, init, key);
      assert Touches(cmds, key) <==> Touches(init, key) || cmds[n].key == key by {
        if Touches(init, key) {
          var i :| 0 <= i < n && init[i].key == key;
          assert cmds[i] == init[i];
        }
        if Touches(cmds, key) && cmds[n].key != key {
          var i :| 0 <= i < |cmds| && cmds[i].key == key;
          assert init[i] == cmds[i];
        }
      }
    }
  }

  /** The reply to the i-th command of a run: what its key held after the
      commands before it. */
  lemma {:induction false} BeforeAt(counters: map<string, int>, cmds: seq<Command>, i: int)
    requires 0 <= i < |cmds|
    ensures Before(counters, cmds)[i] == Lookup(Run(counters, cmds[..i]), cmds[i].key)
    decreases |cmds|
  {
    var n := |cmds| - 1;
    if i < n {
      BeforeAt(counters, cmds[..n], i);
      assert cmds[..n][..i] == cmds[..i] && cmds[..n][i] == cmds[i];
    }
  }

  /** A batch of GETSETs to 0 on distinct keys reads every key as it was
      before the batch and leaves it at 0; other keys are left as they were. */
  lemma ResetBatch(counters: map<string, int>, cmds: seq<Command>)
    requires OnlyResets(cmds) && DistinctKeys(cmds)
    ensures forall i :: 0 <= i < |cmds| ==>
              Before(counters, cmds)[i] == Lookup(counters, cmds[i].key) && Lookup(Run(counters, cmds), cmds[i].key) == Some(0)
    ensures forall k :: !Touches(cmds, k) ==> Lookup(Run(counters, cmds), k) == Lookup(counters, k)
  {
    forall i | 0 <= i < |cmds|
      ensures Before(counters, cmds)[i] == Lookup(counters, cmds[i].key) && Lookup(Run(counters, cmds), cmds[i].key) == Some(0)
    {
      var prefix := cmds[..i];
      BeforeAt(counters, cmds, i);
      assert OnlyResets(prefix) by {
        forall j | 0 <= j < i ensures prefix[j].GetSetCmd? && prefix[j].value == 0 { assert prefix[j] == cmds[j]; }
      }
      assert !Touches(prefix, cmds[i].key) by {
        forall j | 0 <= j < i ensures prefix[j].key != cmds[i].key { assert prefix[j] == cmds[j]; }
      }
      ResetsAt(counters, prefix, cmds[i].key);
      ResetsAt(counters, cmds, cmds[i].key);
    }
    forall k | !Touches(cmds, k) ensures Lookup(Run(counters, cmds), k) == Lookup(counters, k) {
      ResetsAt(counters, cmds, k);
    }
  }

  lemma {:induction false} AddedRemove(cmds: seq<Command>, i: int, key: string)
    requires 0 <= i < |cmds|
    ensures Added(cmds, key) ==
            (if cmds[i].IncrByCmd? && cmds[i].key == key then cmds[i].amount else 0) + Added(cmds[..i] + cmds[i + 1..], key)
    decreases |cmds|
  {
    var n := |cmds|;
    if i < n - 1 {
      var init := cmds[..n - 1];
      AddedRemove(init, i, key);
      var rest := cmds[..i] + cmds[i + 1..];
      assert rest[..|rest| - 1] == init[..i] + init[i + 1..];
      assert rest[|rest| - 1] == cmds[n - 1];
    } else {
      assert cmds[..i] + cmds[i + 1..] == cmds[..n - 1];
    }
  }

  /** Taking the last element of `s` and some equal element of `t` out of two
      arrangements of one multiset leaves two arrangements of one multiset. */
  lemma RemoveMatching(s: seq<Command>, t: seq<Command>, j: int)
    requires |s| > 0 && 0 <= j < |t| && t[j] == s[|s| - 1] && multiset(s) == multiset(t)
    ensures multiset(s[..|s| - 1]) == multiset(t[..j] + t[j + 1..])
  {
    var x := s[|s| - 1];
    assert s == s[..|s| - 1] + [x];
    assert t == t[..j] + [x] + t[j + 1..];
    assert multiset(s[..|s| - 1]) == multiset(s) - multiset{x};
    assert multiset(t[..j] + t[j + 1..]) == multiset(t) - multiset{x};
  }

  lemma {:induction false} AddedPermutation(s: seq<Command>, t: seq<Command>, key: string)
    requires multiset(s) == multiset(t)
    ensures Added(s, key) == Added(t, key)
    decreases |s|
  {
    if |s| == 0 {
      assert |t| == |multiset(t)| == 0;
    } else {
      var x := s[|s| - 1];
      assert x in multiset(t);
      var j :| 0 <= j < |t| && t[j] == x;
      RemoveMatching(s, t, j);
      AddedPermutation(s[..|s| - 1], t[..j] + t[j + 1..], key);
      AddedRemove(t, j, key);
    }
  }

  lemma TouchesPermutation(s: seq<Command>, t: seq<Command>, key: string)
    requires multiset(s) == multiset(t)
    ensures Touches(s, key) <==> Touches(t, key)
  {
    if Touches(s, key) {
      var i :| 0 <= i < |s| && s[i].key == key;
      assert s[i] in multiset(t);
      var j :| 0 <= j < |t| && t[j] == s[i];
    }
    if Touches(t, key) {
      var i :| 0 <= i < |t| && t[i].key == key;
      assert t[i] in multiset(s);
      var j :| 0 <= j < |s| && s[j] == t[i];
    }
  }

  /** INCRBYs commute: any order of the same batch of increments leaves the
      counters in the same state. */
  lemma IncrementsCommute(counters: map<string, int>, s: seq<Command>, t: seq<Command>)
    requires OnlyIncrements(s) && multiset(s) == multiset(t)
    ensures Run(counters, s) == Run(counters, t)
  {
    assert OnlyIncrements(t) by {
      forall i | 0 <= i < |t| ensures t[i].IncrByCmd? {
        assert t[i] in multiset(s);
      }
    }
    var a, b := Run(counters, s), Run(counters, t);
    forall key ensures Lookup(a, key) == Lookup(b, key) {
      IncrementsAt(counters, s, key);
      IncrementsAt(counters, t, key);
      AddedPermutation(s, t, key);
      TouchesPermutation(s, t, key);
    }
    forall key | key in a ensures key in b && a[key] == b[key] {
      assert Lookup(a, key) == Lookup(b, key);
    }
    forall key | key in b ensures key in a {
      assert Lookup(a, key) == Lookup(b, key);
    }
  }

  /** The Redis server the buffer is connected to. */
  class KeyValueStore {
    var counters: map<string, int>
    var hashes: map<string, map<string, Bytes>>

    constructor ()
      ensures counters == map[] && hashes == map[]
    {
      counters := map[];
      hashes := map[];
    }

    /** INCRBY key amount. */
    method IncrBy(key: string, amount: int)
      modifies this
      ensures counters == Exec(old(counters), IncrByCmd(key, amount))
      ensures hashes == old(hashes)
    {
      counters := counters[key := Count(counters, key) + amount];
    }

    /** GETSET key value: the previous contents, nil when absent. */
    method GetSet(key: string, value: int) returns (previous: Option<int>)
      modifies this
      ensures previous == Lookup(old(counters), key)
      ensures counters == Exec(old(counters), GetSetCmd(key, value))
      ensures hashes == old(hashes)
    {
      previous := Lookup(counters, key);
      counters := counters[key := value];
    }

    /** HSET key field value. */
    method HSet(key: string, field: string, value: Bytes)
      modifies this
      ensures hashes == old(hashes)[key := HashAt(old(hashes), key)[field := value]]
      ensures counters == old(counters)
    {
      hashes := hashes[key := HashAt(hashes, key)[field := value]];
    }

    /** HGETALL key. */
    method HGetAll(key: string) returns (fields: map<string, Bytes>)
      ensures key in hashes ==> fields == hashes[key]
      ensures key !in hashes ==> fields == map[]
    {
      fields := HashAt(hashes, key);
    }

    /** DEL key, whatever kind of value it holds. */
    method Delete(key: string)
      modifies this
      ensures counters == Exec(old(counters), DelCmd(key))
      ensures hashes == old(hashes) - {key}
    {
      counters := counters - {key};
      hashes := hashes - {key};
    }
  }
}
