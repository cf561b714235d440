/** `sorted(list(set(xs)))` on strings: the distinct values, ascending. */
module Sorting {
  import opened PyStr

  predicate StrictlySorted(s: seq<string>) {
    forall i, j :: 0 <= i < j < |s| ==> Less(s[i], s[j])
  }

  /** Every non-empty finite set of strings has a least element. */
  lemma {:induction false} LeastExists(s: set<string>) returns (m: string)
    requires s != {}
    ensures m in s && forall y :: y in s && y != m ==> Less(m, y)
    decreases |s|
  {
    var x :| x in s;
    if s == {x} {
      m := x;
    } else {
      var m' := LeastExists(s - {x});
      if Less(x, m') {
        m := x;
        forall y | y in s && y != m ensures Less(m, y) {
          if y != m' {
            LessTransitive(x, m', y);
          }
        }
      } else {
        m := m';
        LessTotal(x, m');
      }
    }
  }

  /** The set's elements in strictly ascending order: the smallest one
      left is taken each time round. */
  method SortSet(s: set<string>) returns (r: seq<string>)
    ensures StrictlySorted(r)
    ensures forall x :: x in r <==> x in s
  {
    r := [];
    var left := s;
    while left != {}
      invariant StrictlySorted(r)
      invariant forall x :: x in s <==> x in r || x in left
      invariant forall i, y :: 0 <= i < |r| && y in left ==> Less(r[i], y)
      decreases |left|
    {
      ghost var least := LeastExists(left);
      var m :| m in left && forall y :: y in left && y != m ==> Less(m, y);
      forall i | 0 <= i < |r| ensures r[i] !in left {
        if r[i] in left {
          LessIrreflexive(r[i]);
        }
      }
      r := r + [m];
      left := left - {m};
    }
  }

  /** The sorted list of distinct elements is unique: two strictly sorted
      lists with the same elements are equal. */
  lemma {:induction false} StrictlySortedUnique(a: seq<string>, b: seq<string>)
    requires StrictlySorted(a) && StrictlySorted(b)
    requires forall x :: x in a <==> x in b
    ensures a == b
  {
    assert |a| > 0 ==> a[0] in a;
    assert |b| > 0 ==> b[0] in b;
    if |a| > 0 && |b| > 0 {
      HeadIsLeast(a, b[0]);
      HeadIsLeast(b, a[0]);
      LessAsymmetric(a[0], b[0]);
      forall x ensures x in a[1..] <==> x in b[1..] {
        if x in a[1..] {
          TailMember(a, x);
          TailMemberBack(b, x);
        }
        if x in b[1..] {
          TailMember(b, x);
          TailMemberBack(a, x);
        }
      }
      StrictlySortedUnique(a[1..], b[1..]);
      assert a == [a[0]] + a[1..] && b == [b[0]] + b[1..];
    }
  }

  lemma LessAsymmetric(x: string, y: string)
    ensures !(Less(x, y) && Less(y, x))
  {
    if Less(x, y) && Less(y, x) {
      LessTransitive(x, y, x);
      LessIrreflexive(x);
    }
  }

  /** The head of a strictly sorted list is below every other element. */
  lemma HeadIsLeast(s: seq<string>, x: string)
    requires StrictlySorted(s) && x in s
    ensures x == s[0] || Less(s[0], x)
  {
  }

  /** In a strictly sorted list the tail holds exactly the elements other
      than the head. */
  lemma TailMember(s: seq<string>, x: string)
    requires StrictlySorted(s) && |s| > 0 && x in s[1..]
    ensures x in s && x != s[0]
  {
    var i :| 0 <= i < |s[1..]| && s[1..][i] == x;
    assert s[i + 1] == x && Less(s[0], x);
    LessIrreflexive(x);
  }

  lemma TailMemberBack(s: seq<string>, x: string)
    requires x in s && |s| > 0 && x != s[0]
    ensures x in s[1..]
  {
    var i :| 0 <= i < |s| && s[i] == x;
    assert s[1..][i - 1] == x;
  }
}
