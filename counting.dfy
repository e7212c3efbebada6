/**
 * Counting entries of a table one key at a time, as the presence loops of the
 * relay and the client do, and the size facts those counts rest on.
 */
module Counting {

  /** The keys among `ids` whose entry in `m` satisfies `p`. */
  ghost function Matching<V>(m: map<string, V>, ids: set<string>, p: V -> bool): set<string>
  {
    set id | id in ids && id in m && p(m[id])
  }

  /** Visiting one more key adds one to the count exactly when its entry matches. */
  lemma MatchingStep<V>(m: map<string, V>, ids: set<string>, id: string, p: V -> bool)
    requires id in m && id !in ids
    ensures p(m[id]) ==> |Matching(m, ids + {id}, p)| == |Matching(m, ids, p)| + 1
    ensures !p(m[id]) ==> |Matching(m, ids + {id}, p)| == |Matching(m, ids, p)|
  {
    if p(m[id]) {
      assert Matching(m, ids + {id}, p) == Matching(m, ids, p) + {id};
    } else {
      assert Matching(m, ids + {id}, p) == Matching(m, ids, p);
    }
  }

  lemma {:induction false} SubsetSize<T>(a: set<T>, b: set<T>)
    requires a <= b
    ensures |a| <= |b|
    decreases a
  {
    if a != {} {
      var x :| x in a;
      SubsetSize(a - {x}, b - {x});
    }
  }
}
