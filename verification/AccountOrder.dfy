/** Account ordering for Solana messages (chain/tx_sol.go).

    Accounts are sorted in place into four header groups by adjacent swaps.  The result is the
    stable partition: each group in its original order, groups in increasing order. */
module AccountOrder {

  datatype AccountMeta = AccountMeta(pubkey: string, isSigner: bool, isWritable: bool)

  /** 0 = signer+writable, 1 = signer+readonly, 2 = writable, 3 = readonly. */
  function Group(a: AccountMeta): (g: nat)
    ensures g < 4
  {
    if a.isSigner && a.isWritable then 0
    else if a.isSigner then 1
    else if a.isWritable then 2
    else 3
  }

  /** The members of one group, in order. */
  function Pick(s: seq<AccountMeta>, g: nat): (r: seq<AccountMeta>)
    ensures |r| <= |s|
  {
    if s == [] then []
    else if Group(s[|s| - 1]) == g then Pick(s[..|s| - 1], g) + [s[|s| - 1]]
    else Pick(s[..|s| - 1], g)
  }

  function Ordered(s: seq<AccountMeta>): (r: seq<AccountMeta>) {
    Pick(s, 0) + Pick(s, 1) + Pick(s, 2) + Pick(s, 3)
  }

  ghost predicate Sorted(s: seq<AccountMeta>) {
    forall i, j :: 0 <= i < j < |s| ==> Group(s[i]) <= Group(s[j])
  }

  // ----- Pick -----

  lemma {:induction false} PickConcat(s: seq<AccountMeta>, t: seq<AccountMeta>, g: nat)
    ensures Pick(s + t, g) == Pick(s, g) + Pick(t, g)
  {
    if t == [] {
      assert s + t == s;
    } else {
      var init := t[..|t| - 1];
      PickConcat(s, init, g);
      assert (s + t)[..|s + t| - 1] == s + init;
    }
  }

  /** Swapping two neighbours of different groups leaves every group as it was. */
  lemma {:induction false} PickSwap(s: seq<AccountMeta>, j: nat, g: nat)
    requires 0 < j < |s|
    requires Group(s[j]) != Group(s[j - 1])
    ensures Pick(s[j := s[j - 1]][j - 1 := s[j]], g) == Pick(s, g)
  {
    var x, y := [s[j - 1]], [s[j]];
    var front, back := s[..j - 1], s[j + 1..];
    var swapped := s[j := s[j - 1]][j - 1 := s[j]];
    assert s == front + x + y + back;
    assert swapped == front + y + x + back;
    PickConcat(front + x + y, back, g);
    PickConcat(front + x, y, g);
    PickConcat(front, x, g);
    PickConcat(front + y + x, back, g);
    PickConcat(front + y, x, g);
    PickConcat(front, y, g);
    assert Pick(x, g) == [] || Pick(y, g) == [];
    assert Pick(front, g) + Pick(x, g) + Pick(y, g) == Pick(front, g) + Pick(y, g) + Pick(x, g);
  }

  lemma {:induction false} PickAbove(s: seq<AccountMeta>, g: nat, h: nat)
    requires g < h
    requires forall i :: 0 <= i < |s| ==> Group(s[i]) <= g
    ensures Pick(s, h) == []
  {
    if s != [] {
      PickAbove(s[..|s| - 1], g, h);
    }
  }

  /** A sorted sequence is its own ordering. */
  lemma {:induction false} SortedIsOrdered(s: seq<AccountMeta>)
    requires Sorted(s)
    ensures Ordered(s) == s
  {
    if s != [] {
      var init, x := s[..|s| - 1], s[|s| - 1];
      SortedIsOrdered(init);
      forall h | Group(x) < h < 4 ensures Pick(init, h) == [] {
        PickAbove(init, Group(x), h);
      }
      assert s == init + [x];
    }
  }

  /** Sequences with the same groups, one of them sorted: the sorted one is the ordering. */
  lemma {:induction false} SamePicks(s: seq<AccountMeta>, t: seq<AccountMeta>)
    requires Sorted(t)
    requires forall g :: 0 <= g < 4 ==> Pick(t, g) == Pick(s, g)
    ensures t == Ordered(s)
  {
    SortedIsOrdered(t);
    assert Pick(t, 0) == Pick(s, 0) && Pick(t, 1) == Pick(s, 1) && Pick(t, 2) == Pick(s, 2) && Pick(t, 3) == Pick(s, 3);
  }

  // ----- the in-place sort -----

  ghost predicate SameGroups(s: seq<AccountMeta>, t: seq<AccountMeta>) {
    forall g :: 0 <= g < 4 ==> Pick(s, g) == Pick(t, g)
  }

  /** Everything up to and including `i` is sorted once position `j` is left out. */
  ghost predicate SortedExcept(s: seq<AccountMeta>, i: nat, j: nat)
    requires j <= i < |s|
  {
    && (forall p, q :: 0 <= p < q <= i && p != j && q != j ==> Group(s[p]) <= Group(s[q]))
    && (forall q :: j < q <= i ==> Group(s[j]) < Group(s[q]))
  }

  /** Inner loop: sink the element at `i` to its place among the sorted elements before it. */
  method Sink(a: array<AccountMeta>, i: nat)
    requires 0 < i < a.Length
    requires Sorted(a[..i])
    modifies a
    ensures Sorted(a[..i + 1])
    ensures SameGroups(a[..], old(a[..]))
  {
    var j := i;
    assert forall p :: 0 <= p < i ==> a[p] == a[..i][p];
    while j > 0 && Group(a[j]) < Group(a[j - 1])
      invariant 0 <= j <= i
      invariant SortedExcept(a[..], i, j)
      invariant SameGroups(a[..], old(a[..]))
    {
      ghost var before := a[..];
      SwapKeepsGroups(before, j);
      a[j], a[j - 1] := a[j - 1], a[j];
      assert a[..] == before[j := before[j - 1]][j - 1 := before[j]];
      j := j - 1;
    }
    assert forall p :: 0 <= p <= i ==> a[..i + 1][p] == a[..][p];
  }

  lemma {:induction false} SwapKeepsGroups(s: seq<AccountMeta>, j: nat)
    requires 0 < j < |s|
    requires Group(s[j]) != Group(s[j - 1])
    ensures SameGroups(s[j := s[j - 1]][j - 1 := s[j]], s)
  {
    forall g | 0 <= g < 4 ensures Pick(s[j := s[j - 1]][j - 1 := s[j]], g) == Pick(s, g) {
      PickSwap(s, j, g);
    }
  }

  method SortByGroup(a: array<AccountMeta>)
    modifies a
    ensures a[..] == Ordered(old(a[..]))
  {
    var i := 1;
    while i < a.Length
      invariant a.Length == 0 || 1 <= i <= a.Length
      invariant a.Length > 0 ==> Sorted(a[..i])
      invariant SameGroups(a[..], old(a[..]))
    {
      Sink(a, i);
      i := i + 1;
    }
    assert a.Length > 0 ==> a[..i] == a[..];
    SamePicks(old(a[..]), a[..]);
  }
}
