/**
 The memo table of `checkSingle` (Lab3/src/porcupine/checker.go, `cacheEntry`, `cacheContains`): buckets of
 (bitset, state) entries under the hash of the bitset. It refines the flat set `pairs`.
 The table owns the bitsets it holds: `Repr` keeps them apart from the one the search changes in place.
 */
module MemoTable {
  import opened Bitset
  import opened Linearizability
  import opened SearchTheory

  datatype CacheEntry<S> = CacheEntry(linearized: array<uint64>, state: S)

  class Table<S(!new)> {
    var buckets: map<uint64, seq<CacheEntry<S>>>
    ghost const width: nat
    ghost var pairs: set<Pair<S>>
    ghost var Repr: set<array<uint64>>

    /** The entry at place `i` of bucket `h` is in the right bucket and stands for a pair of the set. */
    ghost predicate Sound(h: uint64, i: int)
      requires h in buckets && 0 <= i < |buckets[h]|
      reads this, Repr
    {
      var e := buckets[h][i];
      && e.linearized in Repr
      && e.linearized.Length == width
      && HashOf(e.linearized[..]) == h
      && (Members(e.linearized[..]), e.state) in pairs
    }

    /** The pair is held by some entry of the bucket that its hash selects. */
    ghost predicate Stored(words: seq<uint64>, s: S)
      reads this, Repr
    {
      var h := HashOf(words);
      h in buckets && exists i | 0 <= i < |buckets[h]| :: Holds(buckets[h][i], words, s)
    }

    ghost predicate Holds(e: CacheEntry<S>, words: seq<uint64>, s: S)
      reads this, Repr
    {
      e.linearized in Repr && e.linearized[..] == words && e.state == s
    }

    ghost predicate Valid()
      reads this, Repr
    {
      && (forall h, i | h in buckets && 0 <= i < |buckets[h]| :: Sound(h, i))
      && (forall words: seq<uint64>, s: S | |words| == width && (Members(words), s) in pairs :: Stored(words, s))
    }

    constructor (ghost width: nat)
      ensures Valid() && this.width == width && pairs == {} && Repr == {}
    {
      buckets := map[];
      this.width, pairs, Repr := width, {}, {};
    }

    /** Looks in one bucket only, and still finds a pair exactly when the whole set has one. */
    method Contains<I, O>(model: Model<S, I, O>, entry: CacheEntry<S>) returns (found: bool)
      requires Valid() && entry.linearized.Length == width
      ensures found <==> Covered(model, pairs, Members(entry.linearized[..]), entry.state)
    {
      var hash := Hash(entry.linearized);
      ghost var ids := Members(entry.linearized[..]);
      if hash in buckets {
        var bucket := buckets[hash];
        for k := 0 to |bucket|
          invariant forall i | 0 <= i < k ::
                      !(bucket[i].linearized[..] == entry.linearized[..] && model.equal(entry.state, bucket[i].state))
        {
          assert Sound(hash, k);
          var same := Equals(entry.linearized, bucket[k].linearized);
          if same && model.equal(entry.state, bucket[k].state) {
            assert (ids, bucket[k].state) in pairs;
            return true;
          }
        }
      }
      forall t | (ids, t) in pairs ensures !model.equal(entry.state, t) {
        assert Stored(entry.linearized[..], t);
      }
      return false;
    }

    method Insert(entry: CacheEntry<S>)
      requires Valid() && entry.linearized.Length == width && entry.linearized !in Repr
      modifies this
      ensures Valid()
      ensures pairs == old(pairs) + {(Members(entry.linearized[..]), entry.state)}
      ensures Repr == old(Repr) + {entry.linearized}
    {
      var hash := Hash(entry.linearized);
      var bucket := if hash in buckets then buckets[hash] else [];
      buckets := buckets[hash := bucket + [entry]];
      pairs := pairs + {(Members(entry.linearized[..]), entry.state)};
      Repr := Repr + {entry.linearized};
      forall h, i | h in buckets && 0 <= i < |buckets[h]| ensures Sound(h, i) {
        if !(h == hash && i == |bucket|) {
          assert old(h in buckets && 0 <= i < |buckets[h]|) && old(Sound(h, i));
        }
      }
      forall words: seq<uint64>, s: S | |words| == width && (Members(words), s) in pairs ensures Stored(words, s) {
        if (Members(words), s) in old(pairs) {
          assert old(Stored(words, s));
          var h := HashOf(words);
          var i :| 0 <= i < |old(buckets)[h]| && old(Holds(buckets[h][i], words, s));
          assert buckets[h][i] == old(buckets)[h][i];
          assert Holds(buckets[h][i], words, s);
        } else {
          MembersInjective(words, entry.linearized[..]);
          assert Holds(buckets[hash][|bucket|], words, s);
        }
      }
    }
  }
}
