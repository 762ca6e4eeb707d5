// Reconciling the addresses of a network link with a wanted list.  Addresses are
// known by their printed network; the kernel keeps a set of them, refuses to add
// one twice and refuses to delete one that is not there.
module LinkAddresses {

  type Address = string

  function Elements(s: seq<Address>): set<Address> { set x | x in s }

  lemma ElementsSum(s: seq<Address>, t: seq<Address>)
    ensures Elements(s + t) == Elements(s) + Elements(t)
  {}

  ghost predicate Distinct(s: seq<Address>) {
    forall i, j :: 0 <= i < j < |s| ==> s[i] != s[j]
  }

  // What a reconciliation does with the addresses it finds.
  datatype Plan = Plan(remove: seq<Address>, update: seq<Address>, wanted: set<Address>)

  function LinkLocals(addrs: set<Address>, linkLocal: Address -> bool): set<Address> {
    set a | a in addrs && linkLocal(a)
  }

  // Addresses nobody wants any more.
  function Stale(addrs: set<Address>, expected: seq<Address>, linkLocal: Address -> bool): set<Address> {
    set a | a in addrs && !linkLocal(a) && a !in expected
  }

  // Wanted addresses that are in place and compare equal.
  function Undisturbed(addrs: set<Address>, expected: seq<Address>, linkLocal: Address -> bool,
                       same: Address -> bool): set<Address> {
    set a | a in addrs && !linkLocal(a) && a in expected && same(a)
  }

  // The outcome: the old link-local addresses and the wanted ones.
  function Reconciled(addrs: set<Address>, expected: seq<Address>, linkLocal: Address -> bool): set<Address> {
    LinkLocals(addrs, linkLocal) + Elements(expected)
  }

  // The elements of a set, in map iteration order.
  method InSomeOrder(s: set<Address>) returns (l: seq<Address>)
    ensures Elements(l) == s
  {
    l := [];
    var rest := s;
    while rest != {}
      invariant rest <= s && Elements(l) == s - rest
      decreases rest
    {
      var a :| a in rest;
      rest := rest - {a};
      ElementsSum(l, [a]);
      l := l + [a];
    }
  }

  // Sort the addresses found into those to remove and those to update, and find
  // the wanted ones that are not in place as they should be.
  method Sort(expected: seq<Address>, listing: seq<Address>, linkLocal: Address -> bool, same: Address -> bool)
    returns (plan: Plan)
    requires Distinct(listing)
    ensures Elements(plan.remove) == Stale(Elements(listing), expected, linkLocal)
    ensures Elements(plan.update) == set a | a in listing && !linkLocal(a) && a in expected && !same(a)
    ensures plan.wanted == Elements(expected) - Undisturbed(Elements(listing), expected, linkLocal, same)
  {
    var toRemove, toUpdate: seq<Address> := [], [];
    var expectedAddrs := Elements(expected);
    for i := 0 to |listing|
      invariant Elements(toRemove) == Stale(Elements(listing[..i]), expected, linkLocal)
      invariant Elements(toUpdate) == set a | a in listing[..i] && !linkLocal(a) && a in expected && !same(a)
      invariant expectedAddrs == Elements(expected) - Undisturbed(Elements(listing[..i]), expected, linkLocal, same)
    {
      var addr := listing[i];
      assert listing[..i + 1] == listing[..i] + [addr];
      ElementsSum(toRemove, [addr]);
      ElementsSum(toUpdate, [addr]);
      if linkLocal(addr) { continue; }
      if addr !in expectedAddrs {
        toRemove := toRemove + [addr];
        continue;
      }
      if !same(addr) {
        toUpdate := toUpdate + [addr];
        continue;
      }
      expectedAddrs := expectedAddrs - {addr};
    }
    assert listing[..|listing|] == listing;
    plan := Plan(toRemove, toUpdate, expectedAddrs);
  }

  class Link {
    var addrs: set<Address>
    ghost var history: seq<set<Address>>  // the states the kernel went through

    ghost predicate Valid()
      reads this
    {
      history != [] && history[|history| - 1] == addrs
    }

    constructor (addrs: set<Address>)
      ensures Valid() && this.addrs == addrs && history == [addrs]
    {
      this.addrs := addrs;
      history := [addrs];
    }

    method AddrAdd(a: Address) returns (ok: bool)
      requires Valid()
      modifies this
      ensures Valid() && addrs == old(addrs) + {a} && ok == (a !in old(addrs))
      ensures history == old(history) + [addrs]
    {
      ok := a !in addrs;
      addrs := addrs + {a};
      history := history + [addrs];
    }

    method AddrDel(a: Address) returns (ok: bool)
      requires Valid()
      modifies this
      ensures Valid() && addrs == old(addrs) - {a} && ok == (a in old(addrs))
      ensures history == old(history) + [addrs]
    {
      ok := a in addrs;
      addrs := addrs - {a};
      history := history + [addrs];
    }

    method AddAll(toAdd: seq<Address>)
      requires Valid()
      modifies this
      ensures Valid() && addrs == old(addrs) + Elements(toAdd) && old(history) <= history
      ensures forall k :: |old(history)| <= k < |history| ==> old(addrs) <= history[k]
    {
      for i := 0 to |toAdd|
        invariant Valid() && addrs == old(addrs) + Elements(toAdd[..i]) && old(history) <= history
        invariant forall k :: |old(history)| <= k < |history| ==> old(addrs) <= history[k]
      {
        assert toAdd[..i + 1] == toAdd[..i] + [toAdd[i]];
        var _ := AddrAdd(toAdd[i]);
      }
      assert toAdd[..|toAdd|] == toAdd;
    }

    method DeleteAll(toDelete: seq<Address>)
      requires Valid()
      modifies this
      ensures Valid() && addrs == old(addrs) - Elements(toDelete) && old(history) <= history
      ensures forall k :: |old(history)| <= k < |history| ==> old(addrs) - Elements(toDelete) <= history[k]
      ensures forall k :: |old(history)| <= k < |history| ==> history[k] <= old(addrs)
    {
      for i := 0 to |toDelete|
        invariant Valid() && addrs == old(addrs) - Elements(toDelete[..i]) && old(history) <= history
        invariant forall k :: |old(history)| <= k < |history| ==>
                    old(addrs) - Elements(toDelete) <= history[k] <= old(addrs)
      {
        assert toDelete[..i + 1] == toDelete[..i] + [toDelete[i]];
        var _ := AddrDel(toDelete[i]);
      }
      assert toDelete[..|toDelete|] == toDelete;
    }

    // Bring the link's addresses in line with the wanted ones, leaving link-local
    // addresses alone.  same(a) is what comparing address a with its wanted
    // counterpart says; it decides only whether the address is deleted and added
    // again in between.
    method ReconcileLink(expected: seq<Address>, listing: seq<Address>,
                         linkLocal: Address -> bool, same: Address -> bool)
      requires Valid() && Elements(listing) == addrs && Distinct(listing)
      modifies this
      ensures Valid() && addrs == Reconciled(old(addrs), expected, linkLocal)
      ensures forall a :: a in addrs <==> a in expected || (a in old(addrs) && linkLocal(a))
      ensures forall a :: a in old(addrs) && a in expected && same(a) && !linkLocal(a) ==>
                forall k :: |old(history)| <= k < |history| ==> a in history[k]
      ensures old(history) <= history
      ensures forall k :: |old(history)| <= k < |history| ==>
                && LinkLocals(old(addrs), linkLocal) <= history[k]
                && Undisturbed(old(addrs), expected, linkLocal, same) <= history[k]
                && (Elements(expected) <= history[k] || Stale(old(addrs), expected, linkLocal) <= history[k])
    {
      var plan := Sort(expected, listing, linkLocal, same);

      var toAdd := InSomeOrder(plan.wanted);
      DeleteAll(plan.update);
      ElementsSum(toAdd, plan.update);
      var updated := toAdd + plan.update;
      AddAll(updated);
      assert Elements(expected) <= addrs;
      DeleteAll(plan.remove);
      AddAll(updated);
    }
  }

  // A second run with the same wish changes nothing.  A later wish undoes an
  // earlier one exactly when the earlier one brought in no new link-local
  // addresses, which no later run removes.
  lemma ReconcileTwice(addrs: set<Address>, first: seq<Address>, second: seq<Address>, linkLocal: Address -> bool)
    ensures Reconciled(Reconciled(addrs, first, linkLocal), first, linkLocal) == Reconciled(addrs, first, linkLocal)
    ensures Reconciled(Reconciled(addrs, first, linkLocal), second, linkLocal) == Reconciled(addrs, second, linkLocal)
       <==> forall a :: a in first && linkLocal(a) ==> a in addrs || a in second
  {
    var once := Reconciled(addrs, second, linkLocal);
    var twice := Reconciled(Reconciled(addrs, first, linkLocal), second, linkLocal);
    assert forall a :: a in twice <==> a in once || (a in first && linkLocal(a));
    assert forall a :: a in first && linkLocal(a) ==> (a in once <==> a in addrs || a in second);
  }

  // On a link without addresses, a wish for a link-local address is not undone by
  // a later empty one.
  lemma LinkLocalStays(a: Address, linkLocal: Address -> bool)
    requires linkLocal(a)
    ensures Reconciled(Reconciled({}, [a], linkLocal), [], linkLocal) == {a} != Reconciled({}, [], linkLocal)
  {
    assert a in Elements([a]);
  }
}
