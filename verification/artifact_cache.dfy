/**
 * The `compilableFiles` cache: a JavaScript `Map` from a `.js` module id to
 * the compiled code, whose value may be `undefined` when the compiler sent
 * no code for a file. Both hooks that write it do so with a sequence of
 * `Map.set` calls; later writes to the same key win, and nothing is ever
 * deleted.
 */
module ArtifactCache {
  import opened Wrappers

  type Cache = map<string, Option<string>>

  /** One `compilableFiles.set(key, code)` call. */
  datatype Write = Write(key: string, code: Option<string>)

  /** The keys a sequence of writes touches. */
  function WrittenKeys(writes: seq<Write>): set<string> {
    set w | w in writes :: w.key
  }

  /** No write after index `j` touches the key written at `j`. */
  ghost predicate IsLastWrite(writes: seq<Write>, j: int)
    requires 0 <= j < |writes|
  {
    forall j' :: j < j' < |writes| ==> writes[j'].key != writes[j].key
  }

  /**
   * The cache after performing `writes` in order. The keys grow by exactly
   * the written keys, each written key holds the code of its LAST write,
   * and every other entry is unchanged.
   */
  function ApplyWrites(cache: Cache, writes: seq<Write>): (r: Cache)
    ensures r.Keys == cache.Keys + WrittenKeys(writes)
    ensures forall j :: 0 <= j < |writes| && IsLastWrite(writes, j) ==> r[writes[j].key] == writes[j].code
    ensures forall k :: k in cache && k !in WrittenKeys(writes) ==> r[k] == cache[k]
    decreases |writes|
  {
    if |writes| == 0 then cache
    else
      var w := writes[0];
      var rest := writes[1..];
      WrittenKeysOfCons(writes);
      LastWriteOfCons(writes);
      ApplyWrites(cache[w.key := w.code], rest)
  }

  /** The keys of a non-empty sequence of writes: its first key and those of the rest. */
  lemma WrittenKeysOfCons(writes: seq<Write>)
    requires |writes| > 0
    ensures WrittenKeys(writes) == {writes[0].key} + WrittenKeys(writes[1..])
  {
  }

  /** A last write stays last in the rest; the first write is last only if the rest never touches its key. */
  lemma LastWriteOfCons(writes: seq<Write>)
    requires |writes| > 0
    ensures forall j :: 1 <= j < |writes| && IsLastWrite(writes, j) ==> IsLastWrite(writes[1..], j - 1)
    ensures IsLastWrite(writes, 0) ==> writes[0].key !in WrittenKeys(writes[1..])
  {
  }

  /** Every written key has a last write. */
  lemma {:induction false} LastWriteExists(writes: seq<Write>, k: string)
    requires k in WrittenKeys(writes)
    ensures exists j :: 0 <= j < |writes| && writes[j].key == k && IsLastWrite(writes, j)
    decreases |writes|
  {
    var n := |writes| - 1;
    if writes[n].key == k {
      assert IsLastWrite(writes, n);
    } else {
      var front := writes[..n];
      assert writes == front + [writes[n]];
      var w :| w in writes && w.key == k;
      assert w in front;
      LastWriteExists(front, k);
      var j :| 0 <= j < |front| && front[j].key == k && IsLastWrite(front, j);
      assert IsLastWrite(writes, j);
    }
  }

  /** Replaying the same writes changes nothing: each key already holds its last write. */
  lemma ApplyWritesIdempotent(cache: Cache, writes: seq<Write>)
    ensures ApplyWrites(ApplyWrites(cache, writes), writes) == ApplyWrites(cache, writes)
  {
    var once := ApplyWrites(cache, writes);
    var twice := ApplyWrites(once, writes);
    forall k | k in twice
      ensures twice[k] == once[k]
    {
      if k in WrittenKeys(writes) {
        LastWriteExists(writes, k);
      }
    }
  }
}
