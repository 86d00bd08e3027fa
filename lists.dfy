/** java.util.List.remove(Object): drop the first element equal to the
    argument, or nothing when there is none. */
module Lists {

  function RemoveFirst<T(==)>(s: seq<T>, x: T): (r: seq<T>)
    ensures x !in s ==> r == s
    ensures x in s ==> |r| == |s| - 1
  {
    if s == [] then []
    else if s[0] == x then s[1..]
    else [s[0]] + RemoveFirst(s[1..], x)
  }

  /** Removal takes exactly one occurrence of the element out of the list's
      contents when there is one. */
  lemma {:induction false} RemoveFirstContents<T>(s: seq<T>, x: T)
    ensures multiset(RemoveFirst(s, x)) == multiset(s) - multiset{x}
  {
    if s != [] {
      assert s == [s[0]] + s[1..];
      if s[0] != x {
        RemoveFirstContents(s[1..], x);
      }
    }
  }

  /** Removing an element that does not occur earlier in the list removes
      it at its own position, and nowhere else. */
  lemma {:induction false} RemoveFirstAt<T>(s: seq<T>, k: nat)
    requires k < |s|
    requires forall j :: 0 <= j < k ==> s[j] != s[k]
    ensures RemoveFirst(s, s[k]) == s[..k] + s[k + 1..]
  {
    if k == 0 {
      assert s[0] == s[k];
    } else {
      var t := s[1..];
      assert t[k - 1] == s[k];
      assert forall j :: 0 <= j < k - 1 ==> t[j] == s[j + 1];
      RemoveFirstAt(t, k - 1);
      assert s[0] != s[k];
      calc {
        RemoveFirst(s, s[k]);
        [s[0]] + RemoveFirst(t, s[k]);
        [s[0]] + (t[..k - 1] + t[k..]);
        { assert t[..k - 1] == s[1..k] && t[k..] == s[k + 1..]; }
        [s[0]] + (s[1..k] + s[k + 1..]);
        ([s[0]] + s[1..k]) + s[k + 1..];
        { assert s[..k] == [s[0]] + s[1..k]; }
        s[..k] + s[k + 1..];
      }
    }
  }
}
