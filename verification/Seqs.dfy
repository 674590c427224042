/** Inserting into, and removing from, the middle of a sequence, point by point. */
module Seqs {
  ghost predicate Inserted<T>(s: seq<T>, i: nat, x: T, s': seq<T>) {
    && i <= |s|
    && |s'| == |s| + 1
    && (forall j :: 0 <= j < i ==> s'[j] == s[j])
    && s'[i] == x
    && (forall j :: i < j < |s'| ==> s'[j] == s[j - 1])
  }

  ghost predicate Removed<T>(s: seq<T>, i: nat, s': seq<T>) {
    && i < |s|
    && |s'| == |s| - 1
    && (forall j :: 0 <= j < i ==> s'[j] == s[j])
    && (forall j :: i <= j < |s'| ==> s'[j] == s[j + 1])
  }

  lemma InsertAt<T>(s: seq<T>, i: nat, x: T)
    requires i <= |s|
    ensures Inserted(s, i, x, s[..i] + [x] + s[i..])
  {
  }

  lemma RemoveAt<T>(s: seq<T>, i: nat)
    requires i < |s|
    ensures Removed(s, i, s[..i] + s[i + 1..])
  {
  }

  lemma InsertedHas<T>(s: seq<T>, i: nat, x: T, s': seq<T>, y: T)
    requires Inserted(s, i, x, s')
    ensures y in s' <==> y == x || y in s
  {
    if y == x {
      assert s'[i] == y;
    } else if y in s {
      var j :| 0 <= j < |s| && s[j] == y;
      assert s'[if j < i then j else j + 1] == y;
    }
  }

  lemma RemovedHas<T>(s: seq<T>, i: nat, s': seq<T>, y: T)
    requires Removed(s, i, s')
    ensures y in s && y != s[i] ==> y in s'
  {
    if y in s && y != s[i] {
      var j :| 0 <= j < |s| && s[j] == y;
      assert s'[if j < i then j else j - 1] == y;
    }
  }
}
