/** internal/dnshttpspath/service.go: the address targets of the usable bindings, in order. */
module TargetSelection {
  import opened Basics
  import opened DnsEvidence
  import opened ServiceBindings

  /** The evaluated bindings of one response, in wire order. */
  predicate InWireOrder(decisions: seq<BindingDecision>) {
    forall i, j :: 0 <= i < j < |decisions| ==> decisions[i].recordIndex < decisions[j].recordIndex
  }

  /** Lower priority first, then wire order. */
  predicate Precedes(a: BindingDecision, b: BindingDecision) {
    a.priority < b.priority || (a.priority == b.priority && a.recordIndex < b.recordIndex)
  }

  predicate Ordered(s: seq<BindingDecision>) {
    forall i, j :: 0 <= i < j < |s| ==> Precedes(s[i], s[j])
  }

  function UsableOnly(decisions: seq<BindingDecision>): seq<BindingDecision> {
    if decisions == [] then []
    else
      var earlier, d := UsableOnly(decisions[..|decisions| - 1]), decisions[|decisions| - 1];
      if d.usable then earlier + [d] else earlier
  }

  /** Places `d` behind everything of its own or a lower priority. */
  function Insert(sorted: seq<BindingDecision>, d: BindingDecision): seq<BindingDecision> {
    if sorted == [] || sorted[|sorted| - 1].priority <= d.priority then sorted + [d]
    else Insert(sorted[..|sorted| - 1], d) + [sorted[|sorted| - 1]]
  }

  /** `sort.SliceStable` by priority. */
  function StableSort(s: seq<BindingDecision>): seq<BindingDecision> {
    if s == [] then [] else Insert(StableSort(s[..|s| - 1]), s[|s| - 1])
  }

  function Hostnames(s: seq<BindingDecision>): set<string> {
    set d | d in s :: d.addressHostname
  }

  /** The first decision of every hostname. */
  function FirstPerHost(s: seq<BindingDecision>): seq<BindingDecision> {
    if s == [] then []
    else
      var earlier, d := FirstPerHost(s[..|s| - 1]), s[|s| - 1];
      if d.addressHostname in Hostnames(earlier) then earlier else earlier + [d]
  }

  /** The decisions whose hostnames become address targets. */
  function ServiceTargets(decisions: seq<BindingDecision>): seq<BindingDecision> {
    FirstPerHost(StableSort(UsableOnly(decisions)))
  }

  method ServiceAddressTargets(decisions: seq<BindingDecision>) returns (targets: seq<BindingDecision>)
    ensures targets == ServiceTargets(decisions)
  {
    var usable: seq<BindingDecision> := [];
    for i := 0 to |decisions|
      invariant usable == UsableOnly(decisions[..i])
    {
      assert decisions[..i + 1][..i] == decisions[..i];
      if decisions[i].usable { usable := usable + [decisions[i]]; }
    }
    assert decisions[..|decisions|] == decisions;
    usable := StableSort(usable);

    targets := [];
    var seen: set<string> := {};
    for i := 0 to |usable|
      invariant targets == FirstPerHost(usable[..i]) && seen == Hostnames(targets)
    {
      assert usable[..i + 1][..i] == usable[..i];
      if usable[i].addressHostname in seen { continue; }
      seen := seen + {usable[i].addressHostname};
      targets := targets + [usable[i]];
    }
    assert usable[..|usable|] == usable;
  }

  lemma WireOrderOfFront(decisions: seq<BindingDecision>)
    requires decisions != [] && InWireOrder(decisions)
    ensures InWireOrder(decisions[..|decisions| - 1])
    ensures forall d :: d in decisions[..|decisions| - 1] ==> d.recordIndex < decisions[|decisions| - 1].recordIndex
  {
    var front := decisions[..|decisions| - 1];
    forall d | d in front ensures d.recordIndex < decisions[|decisions| - 1].recordIndex {
      var i :| 0 <= i < |front| && front[i] == d;
      assert decisions[i] == d;
    }
  }

  lemma {:induction false} UsableOnlyFilters(decisions: seq<BindingDecision>)
    ensures forall d :: d in UsableOnly(decisions) <==> d in decisions && d.usable
    ensures InWireOrder(decisions) ==> InWireOrder(UsableOnly(decisions))
  {
    if decisions != [] {
      var front, last := decisions[..|decisions| - 1], decisions[|decisions| - 1];
      UsableOnlyFilters(front);
      assert decisions == front + [last];
      if InWireOrder(decisions) {
        WireOrderOfFront(decisions);
      }
    }
  }

  lemma {:induction false} InsertAddsOne(sorted: seq<BindingDecision>, d: BindingDecision)
    ensures forall e :: e in Insert(sorted, d) <==> e in sorted || e == d
  {
    if sorted != [] && sorted[|sorted| - 1].priority > d.priority {
      var front, last := sorted[..|sorted| - 1], sorted[|sorted| - 1];
      InsertAddsOne(front, d);
      assert sorted == front + [last];
    }
  }

  lemma OrderedAppend(sorted: seq<BindingDecision>, last: BindingDecision)
    requires Ordered(sorted) && forall e :: e in sorted ==> Precedes(e, last)
    ensures Ordered(sorted + [last])
  {
    forall i | 0 <= i < |sorted| ensures Precedes(sorted[i], last) {
      assert sorted[i] in sorted;
    }
  }

  lemma OrderedFront(front: seq<BindingDecision>, last: BindingDecision)
    requires Ordered(front + [last])
    ensures Ordered(front) && forall e :: e in front ==> Precedes(e, last)
  {
    var sorted := front + [last];
    forall i, j | 0 <= i < j < |front| ensures Precedes(front[i], front[j]) {
      assert Precedes(sorted[i], sorted[j]);
    }
    forall e | e in front ensures Precedes(e, last) {
      var k :| 0 <= k < |front| && front[k] == e;
      assert Precedes(sorted[k], sorted[|front|]);
    }
  }

  lemma {:induction false} InsertIsStable(sorted: seq<BindingDecision>, d: BindingDecision)
    requires Ordered(sorted) && forall e :: e in sorted ==> e.recordIndex < d.recordIndex
    ensures Ordered(Insert(sorted, d))
  {
    if sorted == [] {
    } else {
      var front, last := sorted[..|sorted| - 1], sorted[|sorted| - 1];
      assert last in sorted && sorted == front + [last];
      OrderedFront(front, last);
      if last.priority > d.priority {
        InsertIsStable(front, d);
        InsertAddsOne(front, d);
        OrderedAppend(Insert(front, d), last);
      } else {
        OrderedAppend(sorted, d);
      }
    }
  }

  lemma {:induction false} StableSortOrders(s: seq<BindingDecision>)
    requires InWireOrder(s)
    ensures Ordered(StableSort(s))
    ensures forall d :: d in StableSort(s) <==> d in s
  {
    if s != [] {
      var front, last := s[..|s| - 1], s[|s| - 1];
      WireOrderOfFront(s);
      StableSortOrders(front);
      assert s == front + [last];
      InsertIsStable(StableSort(front), last);
      InsertAddsOne(StableSort(front), last);
    }
  }

  lemma HostnamesOf(s: seq<BindingDecision>, h: string)
    ensures h in Hostnames(s) <==> exists d :: d in s && d.addressHostname == h
  {
  }

  lemma {:induction false} FirstPerHostSelects(s: seq<BindingDecision>)
    ensures forall t :: t in FirstPerHost(s) ==> t in s
    ensures forall i, j :: 0 <= i < j < |FirstPerHost(s)| ==>
      FirstPerHost(s)[i].addressHostname != FirstPerHost(s)[j].addressHostname
    ensures Hostnames(FirstPerHost(s)) == Hostnames(s)
  {
    if s != [] {
      var front, last := s[..|s| - 1], s[|s| - 1];
      FirstPerHostSelects(front);
      assert s == front + [last];
      var kept := FirstPerHost(front);
      assert Hostnames(s) == Hostnames(front) + {last.addressHostname};
      assert Hostnames(kept + [last]) == Hostnames(kept) + {last.addressHostname};
      if last.addressHostname !in Hostnames(kept) {
        forall i | 0 <= i < |kept| ensures kept[i].addressHostname != last.addressHostname {
          assert kept[i] in kept;
        }
      }
    }
  }

  lemma LastIsGreatest(s: seq<BindingDecision>, d: BindingDecision)
    requires Ordered(s) && s != [] && d in s[..|s| - 1]
    ensures Precedes(d, s[|s| - 1])
  {
    var i :| 0 <= i < |s| - 1 && s[i] == d;
  }

  /** `t` is kept for its hostname: nothing of the same hostname precedes it. */
  predicate LeastOf(s: seq<BindingDecision>, t: BindingDecision) {
    forall d :: d in s && d.addressHostname == t.addressHostname ==> d == t || Precedes(t, d)
  }

  /** What is kept stays in order, and comes first among its own hostname. */
  lemma {:induction false} FirstPerHostKeepsLeast(s: seq<BindingDecision>)
    requires Ordered(s)
    ensures Ordered(FirstPerHost(s))
    ensures forall t :: t in FirstPerHost(s) ==> LeastOf(s, t)
  {
    if s != [] {
      var front, last := s[..|s| - 1], s[|s| - 1];
      var kept := FirstPerHost(front);
      FirstPerHostKeepsLeast(front);
      FirstPerHostSelects(front);
      assert s == front + [last];
      forall t | t in kept ensures Precedes(t, last) && LeastOf(s, t) {
        LastIsGreatest(s, t);
        assert LeastOf(front, t);
      }
      if last.addressHostname !in Hostnames(kept) {
        assert FirstPerHost(s) == kept + [last];
        assert Ordered(kept + [last]);
        forall d | d in front ensures d.addressHostname != last.addressHostname {
          HostnamesOf(front, d.addressHostname);
        }
        assert LeastOf(s, last);
      }
    }
  }

  /** The targets are exactly the usable hostnames, each once: represented by its lowest priority
      and earliest record, and ordered by priority and then by wire position. */
  lemma TargetsAreLeastUsable(decisions: seq<BindingDecision>)
    requires InWireOrder(decisions)
    ensures var targets := ServiceTargets(decisions);
      && Ordered(targets)
      && (forall t :: t in targets ==> t in decisions && t.usable)
      && (forall t, d :: t in targets && d in decisions && d.usable && d.addressHostname == t.addressHostname ==>
            d == t || Precedes(t, d))
      && (forall d :: d in decisions && d.usable ==> d.addressHostname in Hostnames(targets))
      && (forall i, j :: 0 <= i < j < |targets| ==> targets[i].addressHostname != targets[j].addressHostname)
  {
    var usable := UsableOnly(decisions);
    UsableOnlyFilters(decisions);
    StableSortOrders(usable);
    var sorted := StableSort(usable);
    FirstPerHostKeepsLeast(sorted);
    FirstPerHostSelects(sorted);
    var targets := ServiceTargets(decisions);
    forall t, d | t in targets && d in decisions && d.usable && d.addressHostname == t.addressHostname
      ensures d == t || Precedes(t, d)
    {
      assert LeastOf(sorted, t) && d in sorted;
    }
    forall d | d in decisions && d.usable ensures d.addressHostname in Hostnames(targets) {
      assert d in sorted;
      assert d.addressHostname in Hostnames(sorted);
    }
  }

  lemma HostnamesSplit(s: seq<BindingDecision>, limit: nat)
    requires limit <= |s|
    ensures Hostnames(s[..limit]) + Hostnames(s[limit..]) == Hostnames(s)
  {
    assert s == s[..limit] + s[limit..];
  }

  /** After truncation no omitted hostname has a better priority than a kept one, and nothing is
      lost between the two. */
  lemma TruncationKeepsTheBest(decisions: seq<BindingDecision>, limit: nat)
    requires InWireOrder(decisions) && limit <= |ServiceTargets(decisions)|
    ensures var targets := ServiceTargets(decisions);
      && (forall i, j :: 0 <= i < limit <= j < |targets| ==> targets[i].priority <= targets[j].priority)
      && Hostnames(targets[..limit]) + Hostnames(targets[limit..]) == Hostnames(UsableOnly(decisions))
      && Hostnames(targets[..limit]) !! Hostnames(targets[limit..])
  {
    TargetsAreLeastUsable(decisions);
    UsableOnlyFilters(decisions);
    var targets := ServiceTargets(decisions);
    HostnamesSplit(targets, limit);
    assert Hostnames(targets) == Hostnames(UsableOnly(decisions)) by {
      FirstPerHostSelects(StableSort(UsableOnly(decisions)));
      StableSortOrders(UsableOnly(decisions));
    }
  }
}
