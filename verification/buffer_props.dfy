/**
 * What the Redis buffer guarantees across calls: what `incr` adds, what
 * `process` captures and resets, that concurrent increments commute, that
 * no increment is lost or read twice whatever the interleaving of the
 * commands of many calls, and that extra values survive the trip through
 * the hash.
 */
module BufferProperties {
  import opened Wrappers
  import opened Keys
  import opened Store
  import opened Trace
  import opened Buffer

  ghost predicate Distinct(names: seq<string>)
  {
    forall i, j :: 0 <= i < j < |names| ==> names[i] != names[j]
  }

  /** The columns of a dict give distinct counter keys. */
  lemma IncrKeysDistinct(digest: string -> string, tag: string, filters: seq<Filter>, columns: Columns)
    requires DistinctNames(columns)
    ensures DistinctKeys(IncrCommands(digest, tag, filters, columns))
  {
    var cmds := IncrCommands(digest, tag, filters, columns);
    forall i, j | 0 <= i < j < |cmds| ensures cmds[i].key != cmds[j].key {
      CounterKeyColumnInjective(digest, tag, filters, columns[i].0, columns[j].0);
    }
  }

  /** `incr` adds each column's amount to that column's counter. */
  lemma IncrAddsAmounts(counters: map<string, int>, digest: string -> string, tag: string, filters: seq<Filter>, columns: Columns)
    requires DistinctNames(columns)
    ensures var after := Run(counters, IncrCommands(digest, tag, filters, columns));
            forall i :: 0 <= i < |columns| ==>
              var key := CounterKey(digest, tag, filters, columns[i].0);
              Lookup(after, key) == Some(Count(counters, key) + columns[i].1)
  {
    var cmds := IncrCommands(digest, tag, filters, columns);
    IncrKeysDistinct(digest, tag, filters, columns);
    IncrBatch(counters, cmds);
    forall i | 0 <= i < |columns|
      ensures Lookup(Run(counters, cmds), cmds[i].key) == Some(Count(counters, cmds[i].key) + cmds[i].amount)
      ensures cmds[i].key == CounterKey(digest, tag, filters, columns[i].0) && cmds[i].amount == columns[i].1
    {
    }
  }

  /** `incr` leaves every counter but its columns' as it was. */
  lemma IncrKeepsOthers(counters: map<string, int>, digest: string -> string, tag: string, filters: seq<Filter>, columns: Columns, k: string)
    requires DistinctNames(columns)
    requires forall i :: 0 <= i < |columns| ==> k != CounterKey(digest, tag, filters, columns[i].0)
    ensures Lookup(Run(counters, IncrCommands(digest, tag, filters, columns)), k) == Lookup(counters, k)
  {
    var cmds := IncrCommands(digest, tag, filters, columns);
    IncrKeysDistinct(digest, tag, filters, columns);
    IncrBatch(counters, cmds);
    assert !Touches(cmds, k);
  }

  /** Two `incr` calls leave the same counters in either order, whatever
      records and columns they name. */
  lemma IncrCallsCommute(counters: map<string, int>, digest: string -> string,
                         t1: string, f1: seq<Filter>, c1: Columns, t2: string, f2: seq<Filter>, c2: Columns)
    ensures var a, b := IncrCommands(digest, t1, f1, c1), IncrCommands(digest, t2, f2, c2);
            Run(Run(counters, a), b) == Run(Run(counters, b), a)
  {
    var a, b := IncrCommands(digest, t1, f1, c1), IncrCommands(digest, t2, f2, c2);
    RunAppend(counters, a, b, "");
    RunAppend(counters, b, a, "");
    assert multiset(a + b) == multiset(b + a);
    assert OnlyIncrements(a + b);
    IncrementsCommute(counters, a + b, b + a);
  }

  /** The replies collected by column: with distinct names, each name maps
      to its own reply. */
  lemma {:induction false} CollectAt(names: seq<string>, replies: seq<Option<int>>, i: int)
    requires |names| == |replies| && Distinct(names) && 0 <= i < |names|
    ensures Collect(names, replies)[names[i]] == replies[i]
    decreases |names|
  {
    var n := |names| - 1;
    if i < n {
      assert Distinct(names[..n]) by {
        forall a, b | 0 <= a < b < n ensures names[..n][a] != names[..n][b] { assert names[..n][a] == names[a] && names[..n][b] == names[b]; }
      }
      assert names[..n][i] == names[i] && replies[..n][i] == replies[i];
      CollectAt(names[..n], replies[..n], i);
    }
  }

  /** The GETSETs of `process` read each named counter as it was before the
      call and leave it at 0; other counters are untouched. */
  lemma DrainCaptures(counters: map<string, int>, digest: string -> string, tag: string, filters: seq<Filter>, names: seq<string>)
    requires Distinct(names)
    ensures var cmds := DrainCommands(digest, tag, filters, names);
            var captured := Collect(names, Before(counters, cmds));
            forall i :: 0 <= i < |names| ==>
              var key := CounterKey(digest, tag, filters, names[i]);
              captured[names[i]] == Lookup(counters, key) && Lookup(Run(counters, cmds), key) == Some(0)
    ensures var cmds := DrainCommands(digest, tag, filters, names);
            forall k :: (forall i :: 0 <= i < |names| ==> k != CounterKey(digest, tag, filters, names[i])) ==>
              Lookup(Run(counters, cmds), k) == Lookup(counters, k)
  {
    var cmds := DrainCommands(digest, tag, filters, names);
    assert DistinctKeys(cmds) by {
      forall i, j | 0 <= i < j < |cmds| ensures cmds[i].key != cmds[j].key {
        CounterKeyColumnInjective(digest, tag, filters, names[i], names[j]);
      }
    }
    assert OnlyResets(cmds);
    ResetBatch(counters, cmds);
    forall i | 0 <= i < |names| ensures Collect(names, Before(counters, cmds))[names[i]] == Before(counters, cmds)[i] {
      CollectAt(names, Before(counters, cmds), i);
    }
    forall k | forall i :: 0 <= i < |names| ==> k != CounterKey(digest, tag, filters, names[i])
      ensures !Touches(cmds, k)
    {
    }
  }

  /** The results `process` computes hold exactly the named columns whose
      counter held a positive amount before the call, each with that amount;
      they are what it forwards when the stored extra values unpickle. */
  lemma ProcessForwardsPositiveCounts(counters: map<string, int>, digest: string -> string, tag: string, filters: seq<Filter>, columns: Columns)
    requires DistinctNames(columns)
    ensures var names := Names(columns);
            var results := PositiveResults(Collect(names, Before(counters, DrainCommands(digest, tag, filters, names))));
            forall c :: c in results <==> c in names && Count(counters, CounterKey(digest, tag, filters, c)) > 0
    ensures var names := Names(columns);
            var results := PositiveResults(Collect(names, Before(counters, DrainCommands(digest, tag, filters, names))));
            forall c :: c in results ==> results[c] == Count(counters, CounterKey(digest, tag, filters, c))
  {
    var names := Names(columns);
    assert Distinct(names) by {
      forall i, j | 0 <= i < j < |names| ensures names[i] != names[j] { assert names[i] == columns[i].0 && names[j] == columns[j].0; }
    }
    DrainCaptures(counters, digest, tag, filters, names);
    var captured := Collect(names, Before(counters, DrainCommands(digest, tag, filters, names)));
    forall c | c in names ensures captured[c] == Lookup(counters, CounterKey(digest, tag, filters, c)) {
      var i :| 0 <= i < |names| && names[i] == c;
    }
  }

  /** The DEL of a record's extra hash never touches a counter. */
  lemma DelKeepsCounters(counters: map<string, int>, digest: string -> string, tag: string, filters: seq<Filter>,
                         t: string, f: seq<Filter>, c: string)
    requires ColonFree(tag) && ColonFree(t) && forall s :: IsHexDigest(digest(s))
    ensures var key := CounterKey(digest, t, f, c);
            Lookup(Exec(counters, DelCmd(ExtraKey(digest, tag, filters))), key) == Lookup(counters, key)
  {
    KeySpacesDisjoint(digest, t, f, c, tag, filters);
  }

  /** After `process`, every named counter holds 0. */
  lemma ProcessZeroesCounters(counters: map<string, int>, digest: string -> string, tag: string, filters: seq<Filter>, columns: Columns)
    requires DistinctNames(columns)
    requires ColonFree(tag) && forall s :: IsHexDigest(digest(s))
    ensures var names := Names(columns);
            var after := Run(counters, DrainCommands(digest, tag, filters, names) + [DelCmd(ExtraKey(digest, tag, filters))]);
            forall c :: c in names ==> Lookup(after, CounterKey(digest, tag, filters, c)) == Some(0)
  {
    var names := Names(columns);
    var cmds := DrainCommands(digest, tag, filters, names);
    var ek := ExtraKey(digest, tag, filters);
    assert Distinct(names) by {
      forall i, j | 0 <= i < j < |names| ensures names[i] != names[j] { assert names[i] == columns[i].0 && names[j] == columns[j].0; }
    }
    DrainCaptures(counters, digest, tag, filters, names);
    RunSnoc(counters, cmds, DelCmd(ek));
    forall c | c in names ensures Lookup(Run(counters, cmds + [DelCmd(ek)]), CounterKey(digest, tag, filters, c)) == Some(0) {
      var i :| 0 <= i < |names| && names[i] == c;
      DelKeepsCounters(Run(counters, cmds), digest, tag, filters, tag, filters, c);
    }
  }

  /** `process` leaves as it was the counter of every other column, and of
      every record whose tag or canonical filter digest differs. Two filter
      dicts can share that digest (see `Keys.CanonicalStringAmbiguous`). */
  lemma ProcessKeepsOtherCounters(counters: map<string, int>, digest: string -> string, tag: string, filters: seq<Filter>, columns: Columns,
                                  t: string, f: seq<Filter>, c: string)
    requires DistinctNames(columns)
    requires ColonFree(tag) && ColonFree(t) && forall s :: IsHexDigest(digest(s))
    requires !(t == tag && digest(CanonicalFilters(f)) == digest(CanonicalFilters(filters)) && c in Names(columns))
    ensures var names := Names(columns);
            var after := Run(counters, DrainCommands(digest, tag, filters, names) + [DelCmd(ExtraKey(digest, tag, filters))]);
            Lookup(after, CounterKey(digest, t, f, c)) == Lookup(counters, CounterKey(digest, t, f, c))
  {
    var names := Names(columns);
    var cmds := DrainCommands(digest, tag, filters, names);
    var key := CounterKey(digest, t, f, c);
    assert Distinct(names) by {
      forall i, j | 0 <= i < j < |names| ensures names[i] != names[j] { assert names[i] == columns[i].0 && names[j] == columns[j].0; }
    }
    DrainCaptures(counters, digest, tag, filters, names);
    RunSnoc(counters, cmds, DelCmd(ExtraKey(digest, tag, filters)));
    DelKeepsCounters(Run(counters, cmds), digest, tag, filters, t, f, c);
    forall i | 0 <= i < |names| ensures key != CounterKey(digest, tag, filters, names[i]) {
      CounterKeyInjective(digest, t, f, c, tag, filters, names[i]);
    }
  }

  // ---------------------------------------------------------------------
  // Zero loss over the buffer's whole command traffic

  /** A command that some `incr` or `process` call of the buffer sends, for a
      record whose tag holds no colon. */
  ghost predicate IssuedByBuffer(digest: string -> string, cmd: Command)
  {
    match cmd
    case IncrByCmd(key, _) => exists t, f, c :: ColonFree(t) && key == CounterKey(digest, t, f, c)
    case GetSetCmd(key, value) => value == 0 && exists t, f, c :: ColonFree(t) && key == CounterKey(digest, t, f, c)
    case DelCmd(key) => exists t, f :: ColonFree(t) && key == ExtraKey(digest, t, f)
  }

  lemma IncrIssues(digest: string -> string, tag: string, filters: seq<Filter>, columns: Columns)
    requires ColonFree(tag)
    ensures var cmds := IncrCommands(digest, tag, filters, columns);
            forall i :: 0 <= i < |cmds| ==> IssuedByBuffer(digest, cmds[i])
  {
    var cmds := IncrCommands(digest, tag, filters, columns);
    forall i | 0 <= i < |cmds| ensures IssuedByBuffer(digest, cmds[i]) {
      assert cmds[i].key == CounterKey(digest, tag, filters, columns[i].0);
    }
  }

  lemma ProcessIssues(digest: string -> string, tag: string, filters: seq<Filter>, columns: Columns)
    requires ColonFree(tag)
    ensures var cmds := DrainCommands(digest, tag, filters, Names(columns)) + [DelCmd(ExtraKey(digest, tag, filters))];
            forall i :: 0 <= i < |cmds| ==> IssuedByBuffer(digest, cmds[i])
  {
    var names := Names(columns);
    var drain := DrainCommands(digest, tag, filters, names);
    var cmds := drain + [DelCmd(ExtraKey(digest, tag, filters))];
    forall i | 0 <= i < |cmds| ensures IssuedByBuffer(digest, cmds[i]) {
      if i < |drain| {
        assert cmds[i] == GetSetCmd(CounterKey(digest, tag, filters, names[i]), 0);
      } else {
        assert cmds[i] == DelCmd(ExtraKey(digest, tag, filters));
      }
    }
  }

  /** Whatever order Redis runs the commands of any number of concurrent
      `incr` and `process` calls in, a counter loses nothing and no amount
      is read twice: what it held, plus all that was added to it, is what
      the GETSETs read plus what it holds at the end. */
  lemma NothingLostNothingReadTwice(counters: map<string, int>, digest: string -> string, cmds: seq<Command>,
                                    t: string, f: seq<Filter>, c: string)
    requires forall s :: IsHexDigest(digest(s))
    requires ColonFree(t)
    requires forall i :: 0 <= i < |cmds| ==> IssuedByBuffer(digest, cmds[i])
    ensures var key := CounterKey(digest, t, f, c);
            Count(counters, key) + Added(cmds, key) == Sum(Drained(counters, cmds, key)) + Count(Run(counters, cmds), key)
  {
    var key := CounterKey(digest, t, f, c);
    forall i | 0 <= i < |cmds| && cmds[i].DelCmd? ensures cmds[i].key != key {
      var t2, f2 :| ColonFree(t2) && cmds[i].key == ExtraKey(digest, t2, f2);
      KeySpacesDisjoint(digest, t, f, c, t2, f2);
    }
    assert DrainsToZero(cmds, key);
    ZeroLoss(counters, cmds, key);
  }

  // ---------------------------------------------------------------------
  // Extra values

  lemma EncodeAllUnion<V>(encode: V -> Bytes, first: map<string, V>, second: map<string, V>)
    ensures EncodeAll(encode, first) + EncodeAll(encode, second) == EncodeAll(encode, first + second)
  {
  }

  /** The values of the filled fields of a stored hash, unpickled. */
  function Unpickled<V>(decode: Bytes -> Option<V>, stored: map<string, Bytes>): map<string, V>
    requires forall f :: Filled(stored, f) ==> decode(stored[f]).Some?
  {
    map f | f in stored && Filled(stored, f) :: decode(stored[f]).value
  }

  /** Extra values stored by `incr` come back out of `process` as they went
      in, laid over what the record's hash held before, itself laid over the
      values passed to `process`: given that unpickling undoes pickling, a
      pickle is never empty, and the fields already stored unpickle. */
  lemma ExtraRoundTrip<V>(encode: V -> Bytes, decode: Bytes -> Option<V>, hashes: map<string, map<string, Bytes>>, key: string,
                          values: map<string, V>, extra: Option<map<string, V>>)
    requires forall v :: decode(encode(v)) == Some(v) && encode(v) != []
    requires forall f :: Filled(HashAt(hashes, key), f) ==> decode(HashAt(hashes, key)[f]).Some?
    requires values != map[]
    ensures var base := if extra.Some? then extra.value else map[];
            MergeExtra(decode, HashAt(HSetAll(hashes, key, EncodeAll(encode, values)), key), extra) ==
            Ok(Some(base + (Unpickled(decode, HashAt(hashes, key)) + values)))
  {
    var earlier := HashAt(hashes, key);
    var pickled := EncodeAll(encode, values);
    var k :| k in values;
    assert k in pickled;
    var stored := earlier + pickled;
    assert HashAt(HSetAll(hashes, key, pickled), key) == stored;
    assert stored != map[] by { assert k in stored; }
    UnpickledOverwrite(encode, decode, earlier, values);
    MergeDecodable(decode, stored, extra);
  }

  /** A non-empty hash whose filled fields all unpickle merges into their
      values laid over the argument. */
  lemma MergeDecodable<V>(decode: Bytes -> Option<V>, stored: map<string, Bytes>, extra: Option<map<string, V>>)
    requires forall f :: Filled(stored, f) ==> decode(stored[f]).Some?
    requires stored != map[]
    ensures var base := if extra.Some? then extra.value else map[];
            MergeExtra(decode, stored, extra) == Ok(Some(base + Unpickled(decode, stored)))
  {
    assert !exists f :: f in stored && Filled(stored, f) && decode(stored[f]).None?;
  }

  /** Pickling fields over a decodable hash: the unpickled hash is the old
      unpickled values overwritten by the new ones. */
  lemma UnpickledOverwrite<V>(encode: V -> Bytes, decode: Bytes -> Option<V>, earlier: map<string, Bytes>, values: map<string, V>)
    requires forall v :: decode(encode(v)) == Some(v) && encode(v) != []
    requires forall f :: Filled(earlier, f) ==> decode(earlier[f]).Some?
    ensures forall f :: Filled(earlier + EncodeAll(encode, values), f) ==> decode((earlier + EncodeAll(encode, values))[f]).Some?
    ensures Unpickled(decode, earlier + EncodeAll(encode, values)) == Unpickled(decode, earlier) + values
  {
    var pickled := EncodeAll(encode, values);
    var stored := earlier + pickled;
    forall f | Filled(stored, f) ensures decode(stored[f]).Some? {
      if f !in pickled {
        assert Filled(earlier, f);
      }
    }
    var decoded, prior := Unpickled(decode, stored), Unpickled(decode, earlier);
    forall f ensures f in decoded <==> f in prior + values {
      if f in values { assert f in pickled; }
    }
    forall f | f in decoded ensures decoded[f] == (prior + values)[f] {
      if f !in values { assert Filled(earlier, f); }
    }
  }

  /** Two `incr` calls with extra values on one record, then `process`: the
      later call's value wins for a field both set, and both win over what
      the hash held before. */
  lemma LatestExtraWins<V>(encode: V -> Bytes, decode: Bytes -> Option<V>, hashes: map<string, map<string, Bytes>>, key: string,
                           first: map<string, V>, second: map<string, V>, extra: Option<map<string, V>>)
    requires forall v :: decode(encode(v)) == Some(v) && encode(v) != []
    requires forall f :: Filled(HashAt(hashes, key), f) ==> decode(HashAt(hashes, key)[f]).Some?
    requires first != map[] && second != map[]
    ensures var stored := HashAt(HSetAll(HSetAll(hashes, key, EncodeAll(encode, first)), key, EncodeAll(encode, second)), key);
            var base := if extra.Some? then extra.value else map[];
            MergeExtra(decode, stored, extra) == Ok(Some(base + (Unpickled(decode, HashAt(hashes, key)) + (first + second))))
  {
    HSetAllCompose(hashes, key, EncodeAll(encode, first), EncodeAll(encode, second));
    EncodeAllUnion(encode, first, second);
    var k :| k in second;
    assert k in first + second;
    ExtraRoundTrip(encode, decode, hashes, key, first + second, extra);
  }
}
