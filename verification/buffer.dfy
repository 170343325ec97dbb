/**
 * The Redis write buffer: `incr` adds amounts to per-column counters of a
 * record and stores the record's extra values in a hash; `process` drains
 * the counters and the hash of a record, merges the stored extra values over
 * the ones passed in, drops the columns with nothing positive to apply and
 * forwards what is left.
 *
 * md5 and pickle are outside the model: the buffer is given a `digest`
 * function and an `encode`/`decode` pair. The calls to the base buffer class
 * are recorded, in order, in `calls`. A dict of columns is the sequence of its
 * (column, amount) items in iteration order.
 */
module Buffer {
  import opened Wrappers
  import opened Keys
  import opened Store

  type Columns = seq<(string, int)>

  /** A call the Redis buffer makes on its base class. */
  datatype Call<V> =
    | IncrNotified(tag: string, columns: Columns, filters: seq<Filter>, extra: Option<map<string, V>>)
    | ProcessForwarded(tag: string, results: map<string, int>, filters: seq<Filter>, extra: Option<map<string, V>>)

  /** How a call of `process` ended. */
  datatype Status = Forwarded | NothingToForward | ExtraUndecodable

  /** A stored extra value could not be unpickled. */
  datatype MergeError = UndecodableExtra

  /** The extra values are given and are not an empty dict. */
  predicate HasExtra<V>(extra: Option<map<string, V>>)
  {
    extra.Some? && extra.value != map[]
  }

  /** The items come from a dict: no column occurs twice. */
  ghost predicate DistinctNames(columns: Columns)
  {
    forall i, j :: 0 <= i < j < |columns| ==> columns[i].0 != columns[j].0
  }

  function Names(columns: Columns): (r: seq<string>)
    ensures |r| == |columns| && forall i :: 0 <= i < |columns| ==> r[i] == columns[i].0
  {
    seq(|columns|, i requires 0 <= i < |columns| => columns[i].0)
  }

  /** The INCRBY commands `incr` sends, one per column. */
  function IncrCommands(digest: string -> string, tag: string, filters: seq<Filter>, columns: Columns): (r: seq<Command>)
    ensures |r| == |columns|
    ensures forall i :: 0 <= i < |columns| ==> r[i] == IncrByCmd(CounterKey(digest, tag, filters, columns[i].0), columns[i].1)
  {
    seq(|columns|, i requires 0 <= i < |columns| => IncrByCmd(CounterKey(digest, tag, filters, columns[i].0), columns[i].1))
  }

  /** The GETSET-to-0 commands `process` sends, one per column name. */
  function DrainCommands(digest: string -> string, tag: string, filters: seq<Filter>, names: seq<string>): (r: seq<Command>)
    ensures |r| == |names|
    ensures forall i :: 0 <= i < |names| ==> r[i] == GetSetCmd(CounterKey(digest, tag, filters, names[i]), 0)
  {
    seq(|names|, i requires 0 <= i < |names| => GetSetCmd(CounterKey(digest, tag, filters, names[i]), 0))
  }

  /** The GETSET replies keyed by column, a later column of the same name
      overwriting an earlier one. */
  function Collect(names: seq<string>, replies: seq<Option<int>>): (r: map<string, Option<int>>)
    requires |names| == |replies|
    ensures r.Keys == set i | 0 <= i < |names| :: names[i]
    decreases |names|
  {
    if |names| == 0 then map[]
    else Collect(names[..|names| - 1], replies[..|replies| - 1])[names[|names| - 1] := replies[|replies| - 1]]
  }

  /** The pickled extra values, field by field. */
  function EncodeAll<V>(encode: V -> Bytes, extra: map<string, V>): (r: map<string, Bytes>)
    ensures r.Keys == extra.Keys
    ensures forall f :: f in r ==> r[f] == encode(extra[f])
  {
    map f | f in extra :: encode(extra[f])
  }

  /** The results that are worth an update, as integers:
      exactly the columns whose captured value is strictly positive. */
  function PositiveResults(captured: map<string, Option<int>>): (r: map<string, int>)
    ensures forall c :: c in r <==> c in captured && captured[c].GetOr(0) > 0
    ensures forall c :: c in r ==> r[c] > 0 && captured[c] == Some(r[c])
  {
    map c | c in captured && captured[c].GetOr(0) > 0 :: captured[c].value
  }

  /** The stored fields that hold a non-empty value; empty ones are skipped. */
  predicate Filled(stored: map<string, Bytes>, f: string)
  {
    f in stored && stored[f] != []
  }

  /** The extra values `process` forwards, from the hash read back from Redis
      and the `extra` argument. */
  function MergeExtra<V>(decode: Bytes -> Option<V>, stored: map<string, Bytes>, extra: Option<map<string, V>>): (r: Result<Option<map<string, V>>, MergeError>)
    // nothing stored: the argument passes through untouched, None included
    ensures stored == map[] ==> r == Ok(extra)
    // unpickling fails exactly when some filled field does not decode
    ensures r.Err? <==> exists f :: Filled(stored, f) && decode(stored[f]).None?
    ensures r.Ok? && stored != map[] ==> r.value.Some?
    ensures r.Ok? && stored != map[] ==> forall f ::
      f in r.value.value <==> (extra.Some? && f in extra.value) || Filled(stored, f)
    // a filled stored field wins over the argument
    ensures r.Ok? ==> forall f :: Filled(stored, f) ==> r.value.Some? && f in r.value.value && decode(stored[f]) == Some(r.value.value[f])
    // any other field keeps the argument's value
    ensures r.Ok? && stored != map[] ==> forall f ::
      extra.Some? && f in extra.value && !Filled(stored, f) ==> r.value.value[f] == extra.value[f]
  {
    if stored == map[] then Ok(extra)
    else if exists f :: f in stored && Filled(stored, f) && decode(stored[f]).None? then Err(UndecodableExtra)
    else
      var base := if extra.Some? then extra.value else map[];
      Ok(Some(base + map f | f in stored && Filled(stored, f) :: decode(stored[f]).value))
  }

  class RedisBuffer<V> {
    /** md5 hexdigest of a canonical filter string. */
    const digest: string -> string
    /** Pickling of an extra value. */
    const encode: V -> Bytes
    /** Unpickling, None when it fails. */
    const decode: Bytes -> Option<V>
    /** The Redis connection. */
    const conn: KeyValueStore
    /** The calls made so far on the base buffer class. */
    var calls: seq<Call<V>>

    constructor (conn: KeyValueStore, digest: string -> string, encode: V -> Bytes, decode: Bytes -> Option<V>)
      ensures this.conn == conn && this.digest == digest && this.encode == encode && this.decode == decode
      ensures calls == []
    {
      this.conn := conn;
      this.digest := digest;
      this.encode := encode;
      this.decode := decode;
      calls := [];
    }

    /** Adds each column's amount to its counter, stores the extra values in
        the record's hash, then notifies the base class. */
    method Incr(tag: string, columns: Columns, filters: seq<Filter>, extra: Option<map<string, V>>)
      modifies this, conn
      ensures conn.counters == Run(old(conn.counters), IncrCommands(digest, tag, filters, columns))
      ensures !HasExtra(extra) ==> conn.hashes == old(conn.hashes)
      ensures HasExtra(extra) ==>
                conn.hashes == HSetAll(old(conn.hashes), ExtraKey(digest, tag, filters), EncodeAll(encode, extra.value))
      ensures calls == old(calls) + [IncrNotified(tag, columns, filters, extra)]
    {
      IncrCounters(tag, columns, filters);
      // the extra values go to a hash so that process can drop them in one DEL
      if HasExtra(extra) {
        StoreExtra(ExtraKey(digest, tag, filters), extra.value);
      }
      calls := calls + [IncrNotified(tag, columns, filters, extra)];
    }

    /** One INCRBY per column. */
    method IncrCounters(tag: string, columns: Columns, filters: seq<Filter>)
      modifies conn
      ensures conn.counters == Run(old(conn.counters), IncrCommands(digest, tag, filters, columns))
      ensures conn.hashes == old(conn.hashes)
    {
      ghost var cmds := IncrCommands(digest, tag, filters, columns);
      var i := 0;
      while i < |columns|
        invariant 0 <= i <= |columns|
        invariant conn.counters == Run(old(conn.counters), cmds[..i])
        invariant conn.hashes == old(conn.hashes)
      {
        RunSnoc(old(conn.counters), cmds[..i], cmds[i]);
        assert cmds[..i + 1] == cmds[..i] + [cmds[i]];
        conn.IncrBy(CounterKey(digest, tag, filters, columns[i].0), columns[i].1);
        i := i + 1;
      }
      assert cmds[..i] == cmds;
    }

    /** One HSET of the pickled value per extra field. */
    method StoreExtra(key: string, extra: map<string, V>)
      modifies conn
      ensures conn.hashes == HSetAll(old(conn.hashes), key, EncodeAll(encode, extra))
      ensures conn.counters == old(conn.counters)
    {
      var fields := extra.Keys;
      while fields != {}
        invariant fields <= extra.Keys
        invariant conn.hashes == HSetAll(old(conn.hashes), key, EncodeAll(encode, extra - fields))
        invariant conn.counters == old(conn.counters)
        decreases fields
      {
        var field :| field in fields;
        EncodeStep(extra, fields, field);
        HSetStep(old(conn.hashes), key, EncodeAll(encode, extra - fields), field, encode(extra[field]));
        conn.HSet(key, field, encode(extra[field]));
        fields := fields - {field};
      }
      assert extra - fields == extra;
    }

    lemma EncodeStep(extra: map<string, V>, fields: set<string>, field: string)
      requires field in fields && fields <= extra.Keys
      ensures EncodeAll(encode, extra - (fields - {field})) == EncodeAll(encode, extra - fields)[field := encode(extra[field])]
    {
    }

    /** Drains the named columns' counters and the record's extra hash, merges
        the stored extra values over `extra`, and forwards the columns whose
        drained value is positive, if there is any. */
    method Process(tag: string, columns: Columns, filters: seq<Filter>, extra: Option<map<string, V>>) returns (status: Status)
      modifies this, conn
      ensures conn.counters ==
        Run(old(conn.counters), DrainCommands(digest, tag, filters, Names(columns)) + [DelCmd(ExtraKey(digest, tag, filters))])
      ensures conn.hashes == old(conn.hashes) - {ExtraKey(digest, tag, filters)}
      ensures
        var merged := MergeExtra(decode, HashAt(old(conn.hashes), ExtraKey(digest, tag, filters)), extra);
        var cmds := DrainCommands(digest, tag, filters, Names(columns));
        var results := PositiveResults(Collect(Names(columns), Before(old(conn.counters), cmds)));
        if merged.Err? then status == ExtraUndecodable && calls == old(calls)
        else if results == map[] then status == NothingToForward && calls == old(calls)
        else status == Forwarded && calls == old(calls) + [ProcessForwarded(tag, results, filters, merged.value)]
    {
      var names := Names(columns);
      var captured := DrainCounters(tag, names, filters);
      var hashKey := ExtraKey(digest, tag, filters);
      var stored := conn.HGetAll(hashKey);
      conn.Delete(hashKey);
      RunSnoc(old(conn.counters), DrainCommands(digest, tag, filters, names), DelCmd(hashKey));
      assert stored == HashAt(old(conn.hashes), hashKey);

      var merged := MergeStored(stored, extra);
      if merged.Err? {
        return ExtraUndecodable;
      }
      // leave out empty or non-positive counters
      var forwarded := PositiveResults(captured);
      if forwarded == map[] {
        return NothingToForward;
      }
      calls := calls + [ProcessForwarded(tag, forwarded, filters, merged.value)];
      return Forwarded;
    }

    /** One GETSET to 0 per column; the replies by column. */
    method DrainCounters(tag: string, names: seq<string>, filters: seq<Filter>) returns (results: map<string, Option<int>>)
      modifies conn
      ensures conn.counters == Run(old(conn.counters), DrainCommands(digest, tag, filters, names))
      ensures results == Collect(names, Before(old(conn.counters), DrainCommands(digest, tag, filters, names)))
      ensures conn.hashes == old(conn.hashes)
    {
      ghost var cmds := DrainCommands(digest, tag, filters, names);
      results := map[];
      var i := 0;
      while i < |names|
        invariant 0 <= i <= |names|
        invariant conn.counters == Run(old(conn.counters), cmds[..i])
        invariant results == Collect(names[..i], Before(old(conn.counters), cmds[..i]))
        invariant conn.hashes == old(conn.hashes)
      {
        RunSnoc(old(conn.counters), cmds[..i], cmds[i]);
        assert cmds[..i + 1] == cmds[..i] + [cmds[i]];
        assert names[..i + 1][..i] == names[..i];
        var previous := conn.GetSet(CounterKey(digest, tag, filters, names[i]), 0);
        results := results[names[i] := previous];
        i := i + 1;
      }
      assert cmds[..i] == cmds && names[..i] == names;
    }

    /** Static extra values take their latest stored value; the others stay
        as passed. Fails on the first stored value that does not unpickle. */
    method MergeStored(stored: map<string, Bytes>, extra: Option<map<string, V>>) returns (r: Result<Option<map<string, V>>, MergeError>)
      ensures r == MergeExtra(decode, stored, extra)
    {
      if stored == map[] {
        return Ok(extra);
      }
      var fields: map<string, V> := if extra.Some? then extra.value else map[];
      var pending := stored.Keys;
      while pending != {}
        invariant pending <= stored.Keys
        invariant forall f :: f in fields <==> (extra.Some? && f in extra.value) || (Filled(stored, f) && f !in pending)
        invariant forall f :: Filled(stored, f) && f !in pending ==> decode(stored[f]) == Some(fields[f])
        invariant forall f :: extra.Some? && f in extra.value && !(Filled(stored, f) && f !in pending) ==> fields[f] == extra.value[f]
        invariant forall f :: Filled(stored, f) && f !in pending ==> decode(stored[f]).Some?
        decreases pending
      {
        var field :| field in pending;
        pending := pending - {field};
        if stored[field] != [] {
          var value := decode(stored[field]);
          if value.None? {
            return Err(UndecodableExtra);
          }
          fields := fields[field := value.value];
        }
      }
      var base := if extra.Some? then extra.value else map[];
      assert fields == base + map f | f in stored && Filled(stored, f) :: decode(stored[f]).value;
      return Ok(Some(fields));
    }
  }
}
