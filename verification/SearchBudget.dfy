/** gossiper/filesearching.go and DifferenceString of helpers/generalhelpers.go: how the budget of a
    search request is split among the peers. */
module SearchBudget {

  type Address = string

  /** A request sent on, with the budget it carries. */
  datatype Forwarded = Forwarded(to: Address, budget: nat)

  function Members(list: seq<Address>): set<Address> {
    set i | 0 <= i < |list| :: list[i]
  }

  /** list without the excluded addresses, in order. */
  function Without(list: seq<Address>, excluded: set<Address>): seq<Address> {
    if list == [] then [] else
    var init, last := list[..|list| - 1], list[|list| - 1];
    Without(init, excluded) + if last in excluded then [] else [last]
  }

  lemma {:induction false} WithoutMembers(list: seq<Address>, excluded: set<Address>)
    ensures Members(Without(list, excluded)) == Members(list) - excluded
  {
    if list != [] {
      var init, last := list[..|list| - 1], list[|list| - 1];
      WithoutMembers(init, excluded);
      assert list == init + [last];
      MembersSnoc(init, last);
      if last in excluded {
        assert Without(list, excluded) == Without(init, excluded);
      } else {
        MembersSnoc(Without(init, excluded), last);
      }
    }
  }

  /** What Without keeps of a list it keeps of the parts, in order: of a single address, that address or
      nothing. */
  lemma {:induction false} WithoutParts(list: seq<Address>, more: seq<Address>, excluded: set<Address>)
    ensures Without(list + more, excluded) == Without(list, excluded) + Without(more, excluded)
    ensures |list| == 1 ==> Without(list, excluded) == if list[0] in excluded then [] else list
    decreases |more|
  {
    if more == [] {
      assert list + more == list;
      assert |list| == 1 ==> list[..0] == [];
    } else {
      var init, last := more[..|more| - 1], more[|more| - 1];
      WithoutParts(list, init, excluded);
      assert (list + more)[..|list + more| - 1] == list + init;
    }
  }

  method DifferenceString(list1: seq<Address>, list2: seq<Address>) returns (difference: seq<Address>)
    ensures difference == Without(list1, Members(list2))
  {
    var exclude := Members(list2);
    difference := [];
    for i := 0 to |list1|
      invariant difference == Without(list1[..i], exclude)
    {
      assert list1[..i + 1][..i] == list1[..i];
      if list1[i] !in exclude {
        difference := difference + [list1[i]];
      }
    }
    assert list1[..|list1|] == list1;
  }

  lemma MembersSnoc(list: seq<Address>, a: Address)
    ensures Members(list + [a]) == Members(list) + {a}
  {
    var longer := list + [a];
    assert longer[|list|] == a;
    forall x | x in Members(list) ensures x in Members(longer) {
      var i :| 0 <= i < |list| && list[i] == x;
      assert longer[i] == x;
    }
  }

  lemma {:induction false} MembersSize(list: seq<Address>)
    ensures |Members(list)| <= |list|
    ensures |Members(list)| == |list| <==> Distinct(list)
    decreases |list|
  {
    if list != [] {
      var init, last := list[..|list| - 1], list[|list| - 1];
      assert list == init + [last];
      MembersSnoc(init, last);
      MembersSize(init);
      if last in Members(init) {
        assert Members(list) == Members(init);
        var i :| 0 <= i < |init| && init[i] == last;
        assert list[i] == list[|list| - 1];
      } else if Distinct(init) {
        forall i, j | 0 <= i < j < |list| ensures list[i] != list[j] {
          if j == |list| - 1 { assert init[i] in Members(init); } else { assert init[i] != init[j]; }
        }
      } else {
        var i, j :| 0 <= i < j < |init| && init[i] == init[j];
        assert list[i] == list[j];
      }
    }
  }

  predicate Distinct(list: seq<Address>) {
    forall i, j :: 0 <= i < j < |list| ==> list[i] != list[j]
  }

  /** The peers a request may go to. */
  function Available(peers: seq<Address>, sender: Address): seq<Address> {
    Without(peers, {sender})
  }

  predicate OncePerPeer(sent: seq<Forwarded>) {
    forall i, j :: 0 <= i < j < |sent| ==> sent[i].to != sent[j].to
  }

  /** The first ones to be sent carry one more. */
  predicate Amounts(sent: seq<Forwarded>, each: nat, share: nat) {
    forall i :: 0 <= i < |sent| ==> sent[i].budget == each + (if i < share then 1 else 0)
  }

  function Recipients(sent: seq<Forwarded>): set<Address> {
    set i | 0 <= i < |sent| :: sent[i].to
  }

  function Each(budget: nat, n: nat): nat
    requires n > 0
  {
    budget / n
  }

  function Share(budget: nat, n: nat): nat
    requires n > 0
  {
    budget % n
  }

  /** How the request is split. */
  predicate IsSplit(sent: seq<Forwarded>, available: seq<Address>, budget: nat) {
    if available == [] || budget == 0 then sent == [] else
    var each, share := Each(budget, |available|), Share(budget, |available|);
    && |sent| == (if each > 0 then |Members(available)| else Least(share, |Members(available)|))
    && OncePerPeer(sent)
    && Recipients(sent) <= Members(available)
    && Amounts(sent, each, share)
  }

  function Least(a: nat, b: nat): nat {
    if a <= b then a else b
  }

  lemma SendOne(sent: seq<Forwarded>, peer: Address, amount: nat, each: nat, share: nat)
    requires OncePerPeer(sent) && Amounts(sent, each, share) && peer !in Recipients(sent)
    requires amount == each + (if |sent| < share then 1 else 0)
    ensures var sent' := sent + [Forwarded(peer, amount)];
      OncePerPeer(sent') && Amounts(sent', each, share) && Recipients(sent') == Recipients(sent) + {peer}
  {
    var sent' := sent + [Forwarded(peer, amount)];
    assert sent'[|sent|].to == peer;
    forall a | a in Recipients(sent) ensures a in Recipients(sent') {
      var i :| 0 <= i < |sent| && sent[i].to == a;
      assert sent'[i].to == a;
    }
    forall i, j | 0 <= i < j < |sent'| ensures sent'[i].to != sent'[j].to {
      if j == |sent| { assert sent[i].to in Recipients(sent); } else { assert sent[i].to != sent[j].to; }
    }
  }

  lemma NothingSent(sender: Address)
    ensures Members([sender]) == {sender} && Recipients([]) == {} && Members([]) == {}
  {
    assert [sender][0] == sender;
  }

  lemma NoAmounts(each: nat, share: nat)
    ensures Amounts([], each, share) && OncePerPeer([])
  {
  }

  lemma InMembers(list: seq<Address>, i: nat)
    requires i < |list|
    ensures list[i] in Members(list)
  {
  }

  lemma SentToOthers(sent: seq<Forwarded>, peers: seq<Address>, sender: Address)
    requires Recipients(sent) <= Members(peers) - {sender}
    ensures forall i :: 0 <= i < |sent| ==> sent[i].to in peers && sent[i].to != sender
  {
    forall i | 0 <= i < |sent| ensures sent[i].to in Members(peers) - {sender} {
      assert sent[i].to in Recipients(sent);
    }
  }

  /** The random choice of a peer is left open. */
  method ForwardSearchRequestWithBudget(peers: seq<Address>, sender: Address, budget: nat)
    returns (sent: seq<Forwarded>)
    ensures IsSplit(sent, Available(peers, sender), budget)
    ensures forall i :: 0 <= i < |sent| ==> sent[i].to in peers && sent[i].to != sender
  {
    hide Members, Amounts, Recipients, OncePerPeer, Without, Each, Share;
    sent := [];
    NothingSent(sender);
    var chosen := [sender];
    var available := DifferenceString(peers, chosen);
    ghost var first := available;
    WithoutMembers(peers, {sender});
    if budget == 0 || |available| == 0 {
      return;
    }
    var each, share := Each(budget, |available|), Share(budget, |available|);
    var left := share;
    assert Amounts(sent, each, share) && OncePerPeer(sent) by { NoAmounts(each, share); }
    while |available| != 0
      invariant Members(available) == Members(peers) - Members(chosen)
      invariant Members(chosen) == {sender} + Recipients(sent)
      invariant |sent| + |Members(available)| == |Members(first)|
      invariant left == if |sent| <= share then share - |sent| else 0
      invariant each == 0 ==> |sent| <= share
      invariant OncePerPeer(sent)
      invariant Members(first) == Members(peers) - {sender}
      invariant Recipients(sent) <= Members(first)
      invariant Amounts(sent, each, share)
      decreases |Members(available)|
    {
      if left == 0 && each == 0 {
        SentToOthers(sent, peers, sender);
        return;
      }
      var pick :| 0 <= pick < |available|;
      var peer := available[pick];
      var amount := each;
      if left > 0 {
        amount := each + 1;
        left := left - 1;
      }
      InMembers(available, pick);
      MembersSnoc(chosen, peer);
      SendOne(sent, peer, amount, each, share);
      ghost var before := Members(available);
      sent := sent + [Forwarded(peer, amount)];
      chosen := chosen + [peer];
      available := DifferenceString(peers, chosen);
      WithoutMembers(peers, Members(chosen));
      assert Members(available) == before - {peer};
    }
    SentToOthers(sent, peers, sender);
  }

  function Total(sent: seq<Forwarded>): nat {
    if sent == [] then 0 else Total(sent[..|sent| - 1]) + sent[|sent| - 1].budget
  }

  lemma {:induction false} TotalOfSplit(sent: seq<Forwarded>, each: nat, share: nat)
    requires Amounts(sent, each, share)
    ensures Total(sent) == |sent| * each + Least(share, |sent|)
    decreases |sent|
  {
    if sent != [] {
      var init := sent[..|sent| - 1];
      assert forall i :: 0 <= i < |init| ==> init[i] == sent[i];
      TotalOfSplit(init, each, share);
      assert |sent| * each == |init| * each + each;
    }
  }

  /** No budget is empty, no two differ by more than one, and no more is handed out than came in. All
      of it is handed out exactly when the peers available are all different or at least as many are
      different as the budget has units. */
  lemma BudgetIsSplit(sent: seq<Forwarded>, available: seq<Address>, budget: nat)
    requires IsSplit(sent, available, budget) && available != []
    ensures forall i :: 0 <= i < |sent| ==> sent[i].budget > 0
    ensures forall i, j :: 0 <= i < |sent| && 0 <= j < |sent| ==> sent[i].budget <= sent[j].budget + 1
    ensures Total(sent) <= budget
    ensures Total(sent) == budget <==> Distinct(available) || budget <= |Members(available)|
  {
    MembersSize(available);
    if budget > 0 {
      var m := |Members(available)|;
      assert available[0] in Members(available);
      var each, share := SplitParts(sent, available, budget);
      hide IsSplit;
      SplitTotal(sent, m, each, share);
      ExactShare(|available|, m, budget, each, share);
    }
  }

  lemma SplitParts(sent: seq<Forwarded>, available: seq<Address>, budget: nat) returns (each: nat, share: nat)
    requires IsSplit(sent, available, budget) && available != [] && budget > 0
    ensures budget == |available| * each + share && share < |available|
    ensures Amounts(sent, each, share)
    ensures |sent| == if each > 0 then |Members(available)| else Least(share, |Members(available)|)
  {
    each, share := Each(budget, |available|), Share(budget, |available|);
  }

  lemma SplitTotal(sent: seq<Forwarded>, m: nat, each: nat, share: nat)
    requires Amounts(sent, each, share) && |sent| == (if each > 0 then m else Least(share, m))
    ensures forall i :: 0 <= i < |sent| ==> sent[i].budget > 0
    ensures forall i, j :: 0 <= i < |sent| && 0 <= j < |sent| ==> sent[i].budget <= sent[j].budget + 1
    ensures Total(sent) == if each > 0 then m * each + Least(share, m) else Least(share, m)
  {
    TotalOfSplit(sent, each, share);
  }

  lemma ExactShare(n: nat, m: nat, budget: nat, each: nat, share: nat)
    requires 0 < m <= n && budget > 0 && budget == n * each + share && share < n
    ensures var total := if each > 0 then m * each + Least(share, m) else Least(share, m);
      total <= budget && (total == budget <==> m == n || budget <= m)
  {
    if each > 0 {
      Times(n, m, each);
    }
  }

  lemma Times(n: nat, m: nat, each: nat)
    requires m <= n && each > 0
    ensures m * each <= n * each && n <= n * each && (m < n ==> m * each < n * each)
  {
    assert n * each == m * each + (n - m) * each;
  }
}
