/** A merge-PATCH of one keyed document over another: it adds and overwrites leaves and never drops one. */
module MergePatch {

  type Document<!K, !L, +V> = map<K, map<L, V>>

  function Merge<K, L, V>(prior: Document<K, L, V>, next: Document<K, L, V>): Document<K, L, V> {
    map k | k in prior.Keys + next.Keys ::
      if k !in prior then next[k] else if k !in next then prior[k] else prior[k] + next[k]
  }

  ghost predicate LeafDropped<L(!new), V>(before: map<L, V>, after: map<L, V>) {
    exists l :: l in before && l !in after
  }

  /** The old document carries an entry or a leaf that the new one omits. */
  ghost predicate Drops<K(!new), L(!new), V>(prior: Document<K, L, V>, next: Document<K, L, V>) {
    exists k :: k in prior && (k !in next || exists l :: l in prior[k] && l !in next[k])
  }

  /** A merge ends at the new document exactly when the new document drops nothing. */
  lemma MergeDiffersIff<K(!new), L(!new), V>(prior: Document<K, L, V>, next: Document<K, L, V>)
    ensures Merge(prior, next) != next <==> Drops(prior, next)
  {
    var merged := Merge(prior, next);
    if Drops(prior, next) {
      var k :| k in prior && (k !in next || exists l :: l in prior[k] && l !in next[k]);
      assert k in merged;
      if k in next {
        var l :| l in prior[k] && l !in next[k];
        assert l in merged[k];
      }
    } else {
      forall k | k in merged ensures k in next && merged[k] == next[k] {
        assert k in prior ==> k in next;
        if k in prior {
          assert (prior[k] + next[k]).Keys == next[k].Keys;
        }
      }
    }
  }
}
