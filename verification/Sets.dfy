/** Cardinalities of finite sets. */
module Sets {
  lemma Smaller<T>(a: set<T>, b: set<T>)
    requires a <= b
    ensures |a| <= |b|
  {
    assert b == a + (b - a);
  }

  lemma Changed<T>(s: set<T>, x: T)
    ensures |s - {x}| == if x in s then |s| - 1 else |s|
    ensures |s + {x}| == if x in s then |s| else |s| + 1
  {
    if x in s {
      assert s + {x} == s && (s - {x}) + {x} == s;
    } else {
      assert s - {x} == s;
    }
  }

  lemma Singleton<T>(s: set<T>, x: T)
    requires s <= {x}
    ensures |s| <= 1
  {
    Smaller(s, {x});
  }
}
