/** The memo table: configurations the search has entered, in buckets by bitset hash. */
module Cache {
  import opened Linearizability
  import opened Search
  import Bitset

  // ---- the table as a value ----

  datatype Row<+S> = Row(words: seq<Bitset.Word>, state: S)

  ghost function ConfigOf<S>(r: Row<S>): Config<S> {
    Config(Bitset.Members(r.words), r.state)
  }

  ghost predicate Sound<S>(rows: map<Bitset.Word, seq<Row<S>>>, configs: set<Config<S>>, len: nat) {
    forall hash, r | hash in rows && r in rows[hash] ::
      |r.words| == len && Bitset.HashOf(r.words) == hash && ConfigOf(r) in configs
  }

  ghost predicate Complete<S(!new)>(rows: map<Bitset.Word, seq<Row<S>>>, configs: set<Config<S>>) {
    forall c | c in configs :: exists hash, r :: hash in rows && r in rows[hash] && ConfigOf(r) == c
  }

  function Bucket<T>(rows: map<Bitset.Word, seq<T>>, hash: Bitset.Word): seq<T> {
    if hash in rows then rows[hash] else []
  }

  lemma AddRow<S(!new)>(rows: map<Bitset.Word, seq<Row<S>>>, configs: set<Config<S>>, len: nat, r: Row<S>)
    requires Sound(rows, configs, len) && Complete(rows, configs) && |r.words| == len
    ensures var hash := Bitset.HashOf(r.words);
      var rows' := rows[hash := Bucket(rows, hash) + [r]];
      Sound(rows', configs + {ConfigOf(r)}, len) && Complete(rows', configs + {ConfigOf(r)})
  {
    var hash := Bitset.HashOf(r.words);
    var rows' := rows[hash := Bucket(rows, hash) + [r]];
    forall c | c in configs + {ConfigOf(r)}
      ensures exists h, q :: h in rows' && q in rows'[h] && ConfigOf(q) == c
    {
      if c in configs {
        var h, q :| h in rows && q in rows[h] && ConfigOf(q) == c;
        assert h in rows' && q in rows'[h];
      } else {
        assert hash in rows' && r in rows'[hash];
      }
    }
  }

  /** A configuration can only be in the bucket of its hash. */
  lemma InItsBucket<S(!new)>(
    rows: map<Bitset.Word, seq<Row<S>>>, configs: set<Config<S>>, len: nat, words: seq<Bitset.Word>, t: S)
    requires Sound(rows, configs, len) && Complete(rows, configs) && |words| == len
    ensures Config(Bitset.Members(words), t) in configs <==> Row(words, t) in Bucket(rows, Bitset.HashOf(words))
  {
    if Config(Bitset.Members(words), t) in configs {
      var h, q :| h in rows && q in rows[h] && ConfigOf(q) == Config(Bitset.Members(words), t);
      Bitset.MembersDetermine(q.words, words);
    }
    if Row(words, t) in Bucket(rows, Bitset.HashOf(words)) {
      assert ConfigOf(Row(words, t)) in configs;
    }
  }

  // ---- the table in memory ----

  datatype CacheEntry<+S> = CacheEntry(linearized: array<Bitset.Word>, state: S)

  ghost predicate Mirrors<S>(owned: set<array<Bitset.Word>>, bucket: seq<CacheEntry<S>>, row: seq<Row<S>>)
    reads owned
  {
    && |bucket| == |row|
    && forall i | 0 <= i < |bucket| ::
      bucket[i].linearized in owned && row[i] == Row(bucket[i].linearized[..], bucket[i].state)
  }

  class Table<S(!new)> {
    var buckets: map<Bitset.Word, seq<CacheEntry<S>>>
    ghost const len: nat                            // words per bitset
    ghost var rows: map<Bitset.Word, seq<Row<S>>>   // the contents of the buckets
    ghost var configs: set<Config<S>>               // what the table stands for
    ghost var owned: set<array<Bitset.Word>>        // the bitsets stored in it

    ghost predicate Mirrored()
      reads this, owned
    {
      && buckets.Keys == rows.Keys
      && forall hash | hash in buckets :: Mirrors(owned, buckets[hash], rows[hash])
    }

    ghost predicate Valid()
      reads this, owned
    {
      Mirrored() && Sound(rows, configs, len) && Complete(rows, configs)
    }

    constructor (ghost len: nat)
      ensures Valid() && configs == {} && owned == {} && this.len == len
    {
      buckets, rows, configs, owned, this.len := map[], map[], {}, {}, len;
    }

    /** True exactly when an equal configuration was added before. */
    method Contains<I, O>(m: Model<S, I, O>, linearized: array<Bitset.Word>, state: S) returns (found: bool)
      requires Valid() && linearized.Length == len
      ensures found <==> Covered(m, configs, Config(Bitset.Members(linearized[..]), state))
    {
      var hash := Bitset.Hash(linearized);
      var bucket := Bucket(buckets, hash);
      ghost var row := Bucket(rows, hash);
      forall t ensures Config(Bitset.Members(linearized[..]), t) in configs <==> Row(linearized[..], t) in row {
        InItsBucket(rows, configs, len, linearized[..], t);
      }
      for i := 0 to |bucket|
        invariant forall j | 0 <= j < i :: !(row[j].words == linearized[..] && m.equal(state, row[j].state))
      {
        var elem := bucket[i];
        var same := Bitset.Equals(linearized, elem.linearized);
        if same && m.equal(state, elem.state) {
          assert row[i] == Row(linearized[..], elem.state);
          return true;
        }
      }
      return false;
    }

    method Append(hash: Bitset.Word, linearized: array<Bitset.Word>, state: S)
      requires Mirrored()
      modifies `buckets, `rows, `owned
      ensures Mirrored()
      ensures rows == old(rows)[hash := Bucket(old(rows), hash) + [Row(linearized[..], state)]]
      ensures owned == old(owned) + {linearized}
    {
      var bucket := Bucket(buckets, hash) + [CacheEntry(linearized, state)];
      ghost var grown, more := Bucket(rows, hash) + [Row(linearized[..], state)], owned + {linearized};
      assert Mirrors(more, bucket, grown);
      forall h | h in buckets ensures Mirrors(more, buckets[h], rows[h]) {
        assert Mirrors(owned, buckets[h], rows[h]);
      }
      buckets, rows, owned := buckets[hash := bucket], rows[hash := grown], more;
    }

    method Add(linearized: array<Bitset.Word>, state: S)
      requires Valid() && linearized.Length == len
      modifies this
      ensures Valid()
      ensures configs == old(configs) + {Config(Bitset.Members(linearized[..]), state)}
      ensures owned == old(owned) + {linearized}
    {
      var hash := Bitset.Hash(linearized);
      ghost var row := Row(linearized[..], state);
      AddRow(rows, configs, len, row);
      Append(hash, linearized, state);
      configs := configs + {ConfigOf(row)};
    }
  }
}
