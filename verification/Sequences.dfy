/** Ascending lists of addresses or pids. */
module Sequences {
  ghost predicate Ascending(s: seq<nat>)
  {
    forall i, j :: 0 <= i < j < |s| ==> s[i] < s[j]
  }

  lemma AscendingTo(s: seq<nat>, t: nat)
    requires Ascending(s) && t < |s|
    ensures forall i :: 0 <= i < |s| && i != t ==> s[i] != s[t]
  {
    forall i | 0 <= i < |s| && i != t
      ensures s[i] != s[t]
    {
      if i < t { assert s[i] < s[t]; } else { assert s[t] < s[i]; }
    }
  }

  /** `s` without position k. */
  ghost function CutOut(s: seq<nat>, k: nat): seq<nat>
    requires k < |s|
  {
    s[..k] + s[k + 1..]
  }

  lemma CutOutOrder(s: seq<nat>, k: nat)
    requires Ascending(s) && k < |s|
    ensures var r := CutOut(s, k);
      && Ascending(r) && |r| == |s| - 1
      && (forall i :: 0 <= i < k ==> r[i] == s[i]) && (forall i :: k <= i < |r| ==> r[i] == s[i + 1])
      && (forall x :: x in r <==> x in s && x != s[k])
  {
    var r := CutOut(s, k);
    forall x | x in s && x != s[k]
      ensures x in r
    {
      var i :| 0 <= i < |s| && s[i] == x;
      assert if i < k then r[i] == x else r[i - 1] == x;
    }
    AscendingTo(s, k);
  }
}
