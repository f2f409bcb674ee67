/** Listing a set of dates latest first, as the descending date comparator orders them. */
module DateOrder {

  /** A non-empty set has a member. */
  lemma NonEmptyHasMember(s: set<int>)
    requires s != {}
    ensures exists y :: y in s
  {
    if forall y :: y !in s {
      assert false;
    }
  }

  /** A non-empty set of dates has a latest one. */
  lemma {:induction false} LatestExists(s: set<int>)
    requires s != {}
    ensures exists m :: m in s && forall x :: x in s ==> x <= m
    decreases s
  {
    NonEmptyHasMember(s);
    var y :| y in s;
    var s' := s - {y};
    if s' == {} {
      forall x | x in s
        ensures x <= y
      {
        assert x !in s';
      }
    } else {
      assert s' < s;
      LatestExists(s');
      var m :| m in s' && forall x :: x in s' ==> x <= m;
      var best := if y > m then y else m;
      forall x | x in s
        ensures x <= best
      {
        if x != y {
          assert x in s';
        }
      }
      assert best in s;
    }
  }

  /** The latest date of a non-empty set. */
  function Latest(s: set<int>): (m: int)
    requires s != {}
    ensures m in s && forall x :: x in s ==> x <= m
  {
    LatestExists(s);
    var m :| m in s && forall x :: x in s ==> x <= m;
    m
  }

  /** Putting the latest date in front of the others, listed latest first, lists the whole set latest first. */
  lemma PrependLatest(m: int, s: set<int>, rest: seq<int>)
    requires m in s && forall x :: x in s ==> x <= m
    requires forall d :: d in rest <==> d in s - {m}
    requires |rest| == |s - {m}|
    requires forall i, j :: 0 <= i < j < |rest| ==> rest[i] > rest[j]
    ensures forall d :: d in [m] + rest <==> d in s
    ensures |[m] + rest| == |s|
    ensures forall i, j :: 0 <= i < j < |[m] + rest| ==> ([m] + rest)[i] > ([m] + rest)[j]
  {
    var r := [m] + rest;
    forall i, j | 0 <= i < j < |r|
      ensures r[i] > r[j]
    {
      assert r[j] == rest[j - 1];
      if i > 0 {
        assert r[i] == rest[i - 1];
      } else {
        assert rest[j - 1] in s - {m};
      }
    }
  }

  /** The dates of `s`, latest first. */
  function SortedDesc(s: set<int>): (r: seq<int>)
    ensures forall d :: d in r <==> d in s
    ensures |r| == |s|
    ensures forall i, j :: 0 <= i < j < |r| ==> r[i] > r[j]
    decreases |s|
  {
    if s == {} then []
    else
      var m := Latest(s);
      var rest := SortedDesc(s - {m});
      PrependLatest(m, s, rest);
      [m] + rest
  }
}
