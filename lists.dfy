/**
 * Sequences standing for the source's intrusive doubly linked lists:
 * the coroutine wait lists of 1/corobus.c and the global file list of
 * 3/userfs.c. Unlinking an entry splices its neighbours together.
 */
module Lists {

  /** No entry occurs twice: an intrusive list links each node at most once. */
  ghost predicate Distinct<T>(s: seq<T>) {
    forall i, j :: 0 <= i < j < |s| ==> s[i] != s[j]
  }

  /** The list with the entry `x` unlinked; a list without `x` is left as it is. */
  function Unlink<T(==)>(s: seq<T>, x: T): (r: seq<T>)
    ensures |r| <= |s|
  {
    if s == [] then []
    else if s[0] == x then s[1..]
    else [s[0]] + Unlink(s[1..], x)
  }

  /** Unlinking removes exactly `x` and keeps every other entry. */
  lemma {:induction false} UnlinkMembers<T>(s: seq<T>, x: T)
    requires Distinct(s)
    ensures Distinct(Unlink(s, x))
    ensures forall y :: y in Unlink(s, x) <==> y in s && y != x
    ensures x in s ==> |Unlink(s, x)| == |s| - 1
    ensures x !in s ==> Unlink(s, x) == s
  {
    if s != [] && s[0] != x {
      UnlinkMembers(s[1..], x);
      var r := Unlink(s, x);
      assert r == [s[0]] + Unlink(s[1..], x);
      forall i, j | 0 <= i < j < |r| ensures r[i] != r[j] {
        if i == 0 {
          assert r[j] in Unlink(s[1..], x);
          assert s[0] !in s[1..];
        }
      }
    }
  }

  /** Unlinking the entry at index i splices the list around it: the others keep their order. */
  lemma {:induction false} UnlinkAt<T>(s: seq<T>, i: nat)
    requires Distinct(s) && i < |s|
    ensures Unlink(s, s[i]) == s[..i] + s[i + 1..]
  {
    if i > 0 {
      assert s[1..][i - 1] == s[i];
      UnlinkAt(s[1..], i - 1);
      assert s[1..][..i - 1] == s[1..i];
      assert s[..i] == [s[0]] + s[1..i];
      assert s[1..][i..] == s[i + 1..];
    }
  }
}
