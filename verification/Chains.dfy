/**
 Singly linked lists through a next field, ended by NULL: the ready queues and
 the process table.
 */
module Chains {
  import opened SchedSpec
  import opened SchedProofs

  function First(s: seq<int>): int { if s == [] then NULL else s[0] }

  function Last(s: seq<int>): int { if s == [] then NULL else s[|s| - 1] }

  function Following(s: seq<int>, i: nat): int
    requires i < |s|
  {
    if i + 1 < |s| then s[i + 1] else NULL
  }

  /** The list from head, followed through next, is s. */
  ghost predicate Chain(next: map<int, int>, head: int, s: seq<int>)
  {
    ( && head == First(s) && NULL !in s && NoDup(s)
      && (forall i :: 0 <= i < |s| ==> s[i] in next && next[s[i]] == Following(s, i))) == true
  }

  lemma ChainFirst(next: map<int, int>, head: int, s: seq<int>)
    requires Chain(next, head, s)
    ensures head == First(s) && (head == NULL <==> s == []) && NoDup(s)
    ensures s != [] ==> s[0] in next && next[s[0]] == Following(s, 0)
  {
    assert s != [] ==> s[0] in s;
  }

  lemma ChainAt(next: map<int, int>, head: int, s: seq<int>, i: nat)
    requires Chain(next, head, s) && i < |s|
    ensures s[i] != NULL && s[i] in next && next[s[i]] == Following(s, i)
  {
    assert s[i] in s;
  }

  /** Changing next outside the list. */
  lemma ChainFrame(next: map<int, int>, next': map<int, int>, head: int, s: seq<int>)
    requires Chain(next, head, s) && forall x :: x in s && x in next ==> x in next' && next'[x] == next[x]
    ensures Chain(next', head, s)
  {
  }

  lemma ChainAppend(next: map<int, int>, next': map<int, int>, head: int, s: seq<int>, t: int)
    requires Chain(next, head, s) && t !in s && t != NULL && t in next' && next'[t] == NULL
    requires s != [] ==> Last(s) in next' && next'[Last(s)] == t
    requires forall x :: x in s && x != Last(s) && x in next ==> x in next' && next'[x] == next[x]
    ensures Chain(next', if s == [] then t else head, s + [t])
  {
    var r := s + [t];
    forall i | 0 <= i < |r| ensures r[i] in next' && next'[r[i]] == Following(r, i) {
      if i < |s| - 1 { assert s[i] in s && s[i] != Last(s); }
    }
  }

  lemma ChainPrepend(next: map<int, int>, next': map<int, int>, head: int, s: seq<int>, t: int)
    requires Chain(next, head, s) && t !in s && t != NULL && next' == next[t := head]
    ensures Chain(next', t, [t] + s)
  {
    var r := [t] + s;
    forall i | 0 <= i < |r| ensures r[i] in next' && next'[r[i]] == Following(r, i) {
      if i > 0 { assert r[i] == s[i - 1] && s[i - 1] in s; }
    }
  }

  /** next' is next with element i unlinked. */
  ghost predicate Unlinked(next: map<int, int>, next': map<int, int>, s: seq<int>, i: nat)
  {
    && i < |s|
    && (i > 0 ==> s[i - 1] in next' && next'[s[i - 1]] == Following(s, i))
    && (forall x :: x in s && x != s[i] && (i > 0 ==> x != s[i - 1]) && x in next ==> x in next' && next'[x] == next[x])
  }

  lemma ChainRemove(next: map<int, int>, next': map<int, int>, head: int, s: seq<int>, i: nat)
    requires Chain(next, head, s) && Unlinked(next, next', s, i)
    ensures Chain(next', if i == 0 then Following(s, 0) else head, s[..i] + s[i + 1..])
    ensures Without(s, s[i]) == s[..i] + s[i + 1..]
  {
    var r := s[..i] + s[i + 1..];
    WithoutAt(s, i);
    WithoutIs(s, s[i]);
    hide NoDup, Without, Following;
    forall k | 0 <= k < |r| ensures r[k] in next' && next'[r[k]] == Following(r, k) {
      RemovedAt(next, next', head, s, i, k);
    }
    RemovedFirst(s, i);
  }

  lemma RemovedFirst(s: seq<int>, i: nat)
    requires i < |s|
    ensures First(s[..i] + s[i + 1..]) == if i == 0 then Following(s, 0) else First(s)
  {
  }

  lemma RemovedAt(next: map<int, int>, next': map<int, int>, head: int, s: seq<int>, i: nat, k: nat)
    requires Chain(next, head, s) && Unlinked(next, next', s, i) && k < |s| - 1
    ensures var r := s[..i] + s[i + 1..]; r[k] in next' && next'[r[k]] == Following(r, k)
  {
    var r := s[..i] + s[i + 1..];
    var j := if k < i then k else k + 1;
    assert r[k] == s[j] && s[j] in s;
    if j != i - 1 { assert Following(r, k) == Following(s, j); }
  }
}
