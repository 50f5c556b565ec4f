/** Vocabulary shared by every module: optional values, identifiers, clock units and the
    row orders that the SQL queries ask for. */
module Common {

  datatype Option<+T> = None | Some(value: T)

  /** UUIDs are only compared for equality and order, so natural numbers stand for them. */
  type Id = nat

  /** Timestamps are microseconds, the resolution of TIMESTAMPTZ. */
  const SECOND: int := 1_000_000

  /** A reprocess job polls for the consumer this often before it gives up: 300 seconds, every 2. */
  const MAX_POLLS: nat := 150

  function GetOr<T>(o: Option<T>, default: T): T {
    if o.Some? then o.value else default
  }

  function Abs(x: int): nat {
    if x < 0 then -x else x
  }

  /** Lexicographic comparison of equally long sort keys. */
  predicate LexLe(a: seq<int>, b: seq<int>) {
    if a == [] || b == [] then a == []
    else a[0] < b[0] || (a[0] == b[0] && LexLe(a[1..], b[1..]))
  }

  lemma LexTotal(a: seq<int>, b: seq<int>)
    ensures LexLe(a, b) || LexLe(b, a)
    ensures LexLe(a, b) && LexLe(b, a) ==> a == b
  {
    if a != [] && b != [] {
      LexTotal(a[1..], b[1..]);
      assert a == [a[0]] + a[1..] && b == [b[0]] + b[1..];
    }
  }

  lemma LexTransitive(a: seq<int>, b: seq<int>, c: seq<int>)
    requires LexLe(a, b) && LexLe(b, c)
    ensures LexLe(a, c)
  {
    if a != [] && b != [] && c != [] && a[0] == b[0] == c[0] {
      LexTransitive(a[1..], b[1..], c[1..]);
    }
  }

  /** Equal prefixes are transparent to the order, and a larger key stays larger whatever follows. */
  lemma LexAppend(a: seq<int>, b: seq<int>, c: seq<int>, d: seq<int>)
    requires |a| == |b|
    requires LexLe(a, b) && (a == b ==> LexLe(c, d))
    ensures LexLe(a + c, b + d)
  {
    if a == [] {
      assert a + c == c && b + d == d;
    } else {
      assert (a + c)[1..] == a[1..] + c && (b + d)[1..] == b[1..] + d;
      if a[0] == b[0] {
        assert a == [a[0]] + a[1..] && b == [b[0]] + b[1..];
        LexAppend(a[1..], b[1..], c, d);
      }
    }
  }

  lemma LexPrefix(p: seq<int>, a: seq<int>, b: seq<int>)
    requires LexLe(a, b)
    ensures LexLe(p + a, p + b)
  {
    LexTotal(p, p);
    LexAppend(p, p, a, b);
  }

  lemma LexPair(a: int, b: int, c: int, d: int)
    ensures LexLe([a, b], [c, d]) <==> a < c || (a == c && b <= d)
  {
    assert [a, b][1..] == [b] && [c, d][1..] == [d];
    assert [b][1..] == [] && [d][1..] == [];
    assert LexLe([b], [d]) <==> b <= d;
  }

  /** Sort keys in which no two rows tie. */
  ghost predicate Untied(ranks: map<Id, seq<int>>) {
    forall i, j :: i in ranks && j in ranks && ranks[i] == ranks[j] ==> i == j
  }

  predicate IsLeast(ranks: map<Id, seq<int>>, i: Id) {
    i in ranks && forall j :: j in ranks ==> LexLe(ranks[i], ranks[j])
  }

  lemma Pick<T>(s: set<T>) returns (x: T)
    requires s != {}
    ensures x in s
  {
    x :| x in s;
  }

  lemma {:induction false} LeastExists(ranks: map<Id, seq<int>>, ids: set<Id>)
    requires ids != {} && ids <= ranks.Keys
    ensures exists i :: i in ids && forall j :: j in ids ==> LexLe(ranks[i], ranks[j])
  {
    var x := Pick(ids);
    var rest := ids - {x};
    LexTotal(ranks[x], ranks[x]);
    if rest == {} {
      assert ids == {x};
    } else {
      LeastExists(ranks, rest);
      var i :| i in rest && forall j :: j in rest ==> LexLe(ranks[i], ranks[j]);
      LexTotal(ranks[x], ranks[i]);
      if LexLe(ranks[x], ranks[i]) {
        forall j | j in ids ensures LexLe(ranks[x], ranks[j]) {
          if j != x { LexTransitive(ranks[x], ranks[i], ranks[j]); }
        }
      } else {
        assert forall j :: j in ids ==> j == x || j in rest;
      }
    }
  }

  /** ORDER BY rank LIMIT 1. */
  function Least(ranks: map<Id, seq<int>>): (i: Id)
    requires ranks != map[] && Untied(ranks)
    ensures IsLeast(ranks, i)
  {
    assert |ranks.Keys| > 0;
    LeastExists(ranks, ranks.Keys);
    assert forall i, j :: IsLeast(ranks, i) && IsLeast(ranks, j) ==> i == j by {
      forall i, j | IsLeast(ranks, i) && IsLeast(ranks, j) ensures i == j {
        LexTotal(ranks[i], ranks[j]);
      }
    }
    var i :| i in ranks && IsLeast(ranks, i);
    i
  }
}
