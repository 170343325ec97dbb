/**
 * Worked cases of the Redis buffer: three increments of one column followed
 * by one flush, and the precedence of stored extra values over passed ones.
 */
module Scenario {
  import opened Wrappers
  import opened Keys
  import opened Store
  import opened Buffer

  /** The INCRBY of a one-column `incr`. */
  lemma OneColumnIncr(counters: map<string, int>, digest: string -> string, tag: string, filters: seq<Filter>, column: string, amount: int)
    ensures var key := CounterKey(digest, tag, filters, column);
            Run(counters, IncrCommands(digest, tag, filters, [(column, amount)])) == counters[key := Count(counters, key) + amount]
  {
    var key := CounterKey(digest, tag, filters, column);
    var cmds := IncrCommands(digest, tag, filters, [(column, amount)]);
    assert cmds[..0] == [];
    assert cmds[0] == IncrByCmd(key, amount);
  }

  /** What the GETSET of a one-column `process` captures, and what is left
      to forward. */
  lemma OneColumnDrain(counters: map<string, int>, digest: string -> string, tag: string, filters: seq<Filter>, column: string)
    ensures var key := CounterKey(digest, tag, filters, column);
            var captured := Collect([column], Before(counters, DrainCommands(digest, tag, filters, [column])));
            captured == map[column := Lookup(counters, key)]
  {
    var key := CounterKey(digest, tag, filters, column);
    var drain := DrainCommands(digest, tag, filters, [column]);
    assert drain[..0] == [] && [column][..0] == [];
    assert drain[0] == GetSetCmd(key, 0);
  }

  /** `incr(column=1)` three times, then `process(column)`, as for a page
      view counter: the base class gets one `process` call for column=3
      with no extra values, and the counter is back at 0. */
  method ThreeIncrementsThenProcess<V>(buffer: RedisBuffer<V>, tag: string, filters: seq<Filter>, column: string) returns (status: Status)
    requires CounterKey(buffer.digest, tag, filters, column) !in buffer.conn.counters
    requires ExtraKey(buffer.digest, tag, filters) !in buffer.conn.hashes
    requires ColonFree(tag) && forall s :: IsHexDigest(buffer.digest(s))
    modifies buffer, buffer.conn
    ensures status == Forwarded
    ensures buffer.calls == old(buffer.calls) + [
              IncrNotified(tag, [(column, 1)], filters, None),
              IncrNotified(tag, [(column, 1)], filters, None),
              IncrNotified(tag, [(column, 1)], filters, None),
              ProcessForwarded(tag, map[column := 3], filters, None)]
    ensures Lookup(buffer.conn.counters, CounterKey(buffer.digest, tag, filters, column)) == Some(0)
  {
    ghost var start := buffer.conn.counters;
    var one: Columns := [(column, 1)];
    buffer.Incr(tag, one, filters, None);
    buffer.Incr(tag, one, filters, None);
    buffer.Incr(tag, one, filters, None);
    ThreeIncrements(start, buffer.digest, tag, filters, column);

    ghost var counters := buffer.conn.counters;
    var flush: Columns := [(column, 0)];
    assert Names(flush) == [column];
    OneColumnDrain(counters, buffer.digest, tag, filters, column);
    assert PositiveResults(map[column := Some(3)]) == map[column := 3];
    assert HashAt(buffer.conn.hashes, ExtraKey(buffer.digest, tag, filters)) == map[];
    status := buffer.Process(tag, flush, filters, None);
    OneColumnProcessResets(counters, buffer.digest, tag, filters, column);
  }

  /** Three one-column `incr` calls of 1 on a fresh counter leave it at 3. */
  lemma ThreeIncrements(counters: map<string, int>, digest: string -> string, tag: string, filters: seq<Filter>, column: string)
    requires CounterKey(digest, tag, filters, column) !in counters
    ensures var one := IncrCommands(digest, tag, filters, [(column, 1)]);
            Lookup(Run(Run(Run(counters, one), one), one), CounterKey(digest, tag, filters, column)) == Some(3)
  {
    var one := IncrCommands(digest, tag, filters, [(column, 1)]);
    OneColumnIncr(counters, digest, tag, filters, column, 1);
    OneColumnIncr(Run(counters, one), digest, tag, filters, column, 1);
    OneColumnIncr(Run(Run(counters, one), one), digest, tag, filters, column, 1);
  }

  /** A one-column `process` leaves the counter at 0. */
  lemma OneColumnProcessResets(counters: map<string, int>, digest: string -> string, tag: string, filters: seq<Filter>, column: string)
    requires ColonFree(tag) && forall s :: IsHexDigest(digest(s))
    ensures var key := CounterKey(digest, tag, filters, column);
            var cmds := DrainCommands(digest, tag, filters, [column]) + [DelCmd(ExtraKey(digest, tag, filters))];
            Lookup(Run(counters, cmds), key) == Some(0)
  {
    var key := CounterKey(digest, tag, filters, column);
    var drain := DrainCommands(digest, tag, filters, [column]);
    KeySpacesDisjoint(digest, tag, filters, column, tag, filters);
    RunSnoc(counters, drain, DelCmd(ExtraKey(digest, tag, filters)));
    assert drain[..0] == [];
    assert drain[0] == GetSetCmd(key, 0);
  }

  /** Passed {a, b} and stored {b, c}: b and c take the stored values, a keeps
      the passed one. */
  lemma MergePrecedence(encode: string -> Bytes, decode: Bytes -> Option<string>)
    requires forall v :: decode(encode(v)) == Some(v) && encode(v) != []
    ensures MergeExtra(decode, map["b" := encode("stored"), "c" := encode("stored")], Some(map["a" := "caller", "b" := "caller"]))
            == Ok(Some(map["a" := "caller", "b" := "stored", "c" := "stored"]))
  {
    var stored := map["b" := encode("stored"), "c" := encode("stored")];
    assert decode(stored["b"]) == Some("stored") && decode(stored["c"]) == Some("stored");
    assert Filled(stored, "b") && Filled(stored, "c");
    assert !exists f :: f in stored && Filled(stored, f) && decode(stored[f]).None?;
    var decoded := map f | f in stored && Filled(stored, f) :: decode(stored[f]).value;
    assert decoded == map["b" := "stored", "c" := "stored"];
    assert map["a" := "caller", "b" := "caller"] + decoded == map["a" := "caller", "b" := "stored", "c" := "stored"];
  }
}
