/** String order, and the iteration order of an ordered map: its keys ascending. */
module Ordered {

  /** Lexicographic order on octets. */
  predicate Less(a: string, b: string) {
    b != "" && (a == "" || a[0] < b[0] || (a[0] == b[0] && Less(a[1..], b[1..])))
  }

  lemma {:induction false} Irreflexive(a: string)
    ensures !Less(a, a)
  {
    if a != "" {
      Irreflexive(a[1..]);
    }
  }

  lemma {:induction false} Trichotomy(a: string, b: string)
    ensures Less(a, b) || a == b || Less(b, a)
  {
    if a != "" && b != "" {
      Trichotomy(a[1..], b[1..]);
      assert a == [a[0]] + a[1..] && b == [b[0]] + b[1..];
    }
  }

  lemma {:induction false} Transitive(a: string, b: string, c: string)
    requires Less(a, b) && Less(b, c)
    ensures Less(a, c)
  {
    if a != "" && a[0] == b[0] == c[0] {
      Transitive(a[1..], b[1..], c[1..]);
    }
  }

  predicate IsLeast(m: string, keys: set<string>) {
    m in keys && forall k :: k in keys ==> k == m || Less(m, k)
  }

  lemma {:induction false} LeastExists(keys: set<string>) returns (m: string)
    requires keys != {}
    ensures IsLeast(m, keys)
    decreases |keys|
  {
    m :| m in keys;
    var rest := keys - {m};
    if rest != {} {
      var n := LeastExists(rest);
      Trichotomy(m, n);
      if Less(n, m) {
        m := n;
      } else {
        forall k | k in keys
          ensures k == m || Less(m, k)
        {
          if k != m && k != n {
            Transitive(m, n, k);
          }
        }
      }
    }
  }

  lemma {:induction false} LeastUnique(a: string, b: string, keys: set<string>)
    requires IsLeast(a, keys) && IsLeast(b, keys)
    ensures a == b
  {
    if a != b {
      Transitive(a, b, a);
      Irreflexive(a);
    }
  }

  function Least(keys: set<string>): (m: string)
    requires keys != {}
    ensures IsLeast(m, keys)
  {
    LeastExistsAndUnique(keys);
    var m :| IsLeast(m, keys);
    m
  }

  lemma {:induction false} LeastExistsAndUnique(keys: set<string>)
    requires keys != {}
    ensures exists m :: IsLeast(m, keys)
    ensures forall a, b :: IsLeast(a, keys) && IsLeast(b, keys) ==> a == b
  {
    var m := LeastExists(keys);
    forall a, b | IsLeast(a, keys) && IsLeast(b, keys)
      ensures a == b
    {
      LeastUnique(a, b, keys);
    }
  }

  /** The keys in ascending order. */
  function Ascending(keys: set<string>): (ks: seq<string>)
    ensures |ks| == |keys|
    ensures forall k :: k in ks <==> k in keys
    decreases |keys|
  {
    if keys == {} then []
    else
      var m := Least(keys);
      [m] + Ascending(keys - {m})
  }

  predicate StrictlyAscending(ks: seq<string>) {
    forall i, j :: 0 <= i < j < |ks| ==> Less(ks[i], ks[j])
  }

  lemma {:induction false} AscendingIsSorted(keys: set<string>)
    ensures StrictlyAscending(Ascending(keys))
    decreases |keys|
  {
    if keys != {} {
      var m := Least(keys);
      AscendingIsSorted(keys - {m});
      var rest := Ascending(keys - {m});
      forall j | 0 <= j < |rest|
        ensures Less(m, rest[j])
      {
        assert rest[j] in rest;
      }
    }
  }

  /** The values of an ordered map, by ascending key. */
  function Values<V>(m: map<string, V>): (vs: seq<V>)
    ensures |vs| == |m|
  {
    var ks := Ascending(m.Keys);
    seq(|ks|, i requires 0 <= i < |ks| => assert ks[i] in ks; m[ks[i]])
  }

  /** The order of octets: a string comes before what it is a start of, and otherwise the first
      difference decides. */
  lemma {:induction false} LessMeans(p: string, a: string, b: string)
    ensures a == "" && b != "" ==> Less(p + a, p + b)
    ensures a != "" && b != "" && a[0] < b[0] ==> Less(p + a, p + b)
  {
    if p == "" {
      assert p + a == a && p + b == b;
    } else {
      assert (p + a)[1..] == p[1..] + a && (p + b)[1..] == p[1..] + b;
      LessMeans(p[1..], a, b);
    }
  }

  /** The values of a map come in the order of their keys. */
  lemma {:induction false} ValuesByKey<V>(m: map<string, V>) returns (ks: seq<string>)
    ensures |ks| == |Values(m)| && StrictlyAscending(ks)
    ensures forall k :: k in ks <==> k in m
    ensures forall i :: 0 <= i < |ks| ==> ks[i] in m && Values(m)[i] == m[ks[i]]
  {
    hide Ascending;
    ks := Ascending(m.Keys);
    AscendingIsSorted(m.Keys);
    assert forall i :: 0 <= i < |ks| ==> ks[i] in ks;
  }
}
