// Single-cast and multicast delegates: a bound (target, method) pair that can be
// called like a function, and an ordered list of such pairs called one after another.

module SmallDelegate {
  import opened Pointers

  /** One call of a bound method: the target object, the method and the arguments. */
  datatype Call<A> = Call(target: nat, member: nat, args: A)

  /** What the handler code does when method `member` runs on object `target` with
      `args`: its return value. The handler bodies are outside the library. */
  type Dispatch<!A, R> = (nat, nat, A) -> R

  /** The value of a single-cast delegate, as it is copied into a multicast delegate:
      the method pointer and the target pointer. */
  datatype Binding = Binding(pmethod: MethodPtr, pthis: Ptr) {

    /** A delegate may be called only when both halves are set. */
    function IsValid(): (r: bool)
      ensures r <==> pmethod != NullMethod && pthis != Null
    {
      pmethod.MethodAddr? && pthis.Addr?
    }

    /** Member-wise comparison of the two halves. */
    function CompareTo(other: Binding): (r: bool)
      ensures r <==> this == other
    {
      pmethod == other.pmethod && pthis == other.pthis
    }

    /** The call that invoking this binding with `args` makes. */
    function CallWith<A>(args: A): (c: Call<A>)
      requires IsValid()
    {
      Call(pthis.id, pmethod.id, args)
    }

    /** The value invoking this binding with `args` returns. */
    function ResultOf<A, R>(args: A, call: Dispatch<A, R>): (r: R)
      requires IsValid()
    {
      call(pthis.id, pmethod.id, args)
    }
  }

  /** The binding both halves of which are null, what `bind(nullptr, nullptr)` leaves. */
  const Unbound := Binding(NullMethod, Null)

  /** A single-cast delegate object: its two pointers are rebound in place. */
  class ScDelegate {
    var pmethod: MethodPtr
    var pthis: Ptr

    /** The (method, target) pair this delegate currently holds. */
    function Value(): (b: Binding)
      reads this
    {
      Binding(pmethod, pthis)
    }

    /** `is_valid` and `operator bool`: both pointers are non-null. */
    function IsValid(): (r: bool)
      reads this
      ensures r <==> pmethod != NullMethod && pthis != Null
    {
      Value().IsValid()
    }

    /** Default construction: both pointers null. */
    constructor ()
      ensures Value() == Unbound
      ensures !IsValid()
    {
      pmethod, pthis := NullMethod, Null;
    }

    /** Construction from a method alone: the target stays null. */
    constructor FromMethod(m: MethodPtr)
      ensures pmethod == m && pthis == Null
      ensures !IsValid()
    {
      pmethod, pthis := m, Null;
    }

    /** Construction from a target and a method. */
    constructor Bound(t: Ptr, m: MethodPtr)
      ensures pmethod == m && pthis == t
      ensures IsValid() <==> t != Null && m != NullMethod
    {
      pmethod, pthis := m, t;
    }

    /** Rebinds the method only. */
    method SetMethod(m: MethodPtr)
      modifies this`pmethod
      ensures pmethod == m && pthis == old(pthis)
    {
      pmethod := m;
    }

    /** Rebinds the target only. */
    method BindTarget(t: Ptr)
      modifies this`pthis
      ensures pthis == t && pmethod == old(pmethod)
    {
      pthis := t;
    }

    /** Rebinds both halves. */
    method Bind(t: Ptr, m: MethodPtr)
      modifies this
      ensures Value() == Binding(m, t)
    {
      pthis := t;
      pmethod := m;
    }

    /** Calls the bound method on the bound target exactly once with `args` and
        returns what that call returns; calling an unbound delegate is not allowed. */
    method Invoke<A, R>(args: A, call: Dispatch<A, R>) returns (r: R, ghost calls: seq<Call<A>>)
      requires IsValid()
      ensures calls == [Call(pthis.id, pmethod.id, args)]
      ensures r == call(pthis.id, pmethod.id, args)
    {
      r := call(pthis.id, pmethod.id, args);
      calls := [Call(pthis.id, pmethod.id, args)];
    }

    /** `compare_to` and `operator==`: equal exactly when both halves are equal. */
    function CompareTo(other: ScDelegate): (r: bool)
      reads this, other
      ensures r <==> pmethod == other.pmethod && pthis == other.pthis
    {
      Value().CompareTo(other.Value())
    }

    /** `operator!=`: the exact negation of `CompareTo`. */
    function Differs(other: ScDelegate): (r: bool)
      reads this, other
      ensures r <==> pmethod != other.pmethod || pthis != other.pthis
    {
      !CompareTo(other)
    }
  }

  /** Comparison of delegate objects is an equivalence: reflexive, symmetric and transitive. */
  lemma CompareToIsEquivalence(a: ScDelegate, b: ScDelegate, c: ScDelegate)
    ensures a.CompareTo(a)
    ensures a.CompareTo(b) == b.CompareTo(a)
    ensures a.CompareTo(b) && b.CompareTo(c) ==> a.CompareTo(c)
    ensures a.Differs(b) == !a.CompareTo(b)
  {
  }

  predicate AllValid(ds: seq<Binding>) {
    forall i :: 0 <= i < |ds| ==> ds[i].IsValid()
  }

  /** The calls invoking every binding of `ds` in index order makes. */
  function Calls<A>(ds: seq<Binding>, args: A): (cs: seq<Call<A>>)
    requires AllValid(ds)
    ensures |cs| == |ds|
    ensures forall i :: 0 <= i < |ds| ==> cs[i] == ds[i].CallWith(args)
  {
    if ds == [] then [] else [ds[0].CallWith(args)] + Calls(ds[1..], args)
  }

  /** The value the multicast loop leaves in its result variable: starting from `acc`,
      every binding's result overwrites the previous one, so only the last survives:
      an empty list gives back the starting value, any other list the result of its
      last binding. */
  function Broadcast<A, R>(ds: seq<Binding>, args: A, call: Dispatch<A, R>, acc: R): (r: R)
    requires AllValid(ds)
    ensures r == if ds == [] then acc else ds[|ds| - 1].ResultOf(args, call)
  {
    if ds == [] then acc else Broadcast(ds[1..], args, call, ds[0].ResultOf(args, call))
  }

  /** A binding appended to the list is called after every earlier one, and its
      result is the one the whole invocation returns. */
  lemma AddedIsCalledLast<A, R>(ds: seq<Binding>, d: Binding, args: A, call: Dispatch<A, R>, zero: R)
    requires AllValid(ds) && d.IsValid()
    ensures AllValid(ds + [d])
    ensures Calls(ds + [d], args) == Calls(ds, args) + [d.CallWith(args)]
    ensures Broadcast(ds + [d], args, call, zero) == d.ResultOf(args, call)
  {
    assert (ds + [d])[|ds|] == d;
  }

  /** `std::find`: the index of the first binding that compares equal to `d`,
      or `|ds|` (the end of the vector) when there is none. */
  function Find(ds: seq<Binding>, d: Binding): (k: nat)
    ensures k <= |ds|
    ensures forall i :: 0 <= i < k ==> !ds[i].CompareTo(d)
    ensures k < |ds| ==> ds[k].CompareTo(d)
    ensures k == |ds| <==> d !in ds
  {
    if ds == [] then 0
    else if ds[0].CompareTo(d) then 0
    else 1 + Find(ds[1..], d)
  }

  /** The vector left by erasing position `k`. */
  function EraseAt(ds: seq<Binding>, k: nat): (r: seq<Binding>)
    requires k < |ds|
    ensures |r| == |ds| - 1
    ensures forall i :: 0 <= i < k ==> r[i] == ds[i]
    ensures forall i :: k <= i < |r| ==> r[i] == ds[i + 1]
  {
    ds[..k] + ds[k + 1..]
  }

  /** What `remove` leaves: the first binding equal to `d` erased, or `ds` as it was. */
  function RemoveFirst(ds: seq<Binding>, d: Binding): (r: seq<Binding>)
    ensures d !in ds ==> r == ds
    ensures |r| == if d in ds then |ds| - 1 else |ds|
  {
    var k := Find(ds, d);
    if k < |ds| then EraseAt(ds, k) else ds
  }

  /** When `d` is present, removing drops exactly one occurrence of it, the first,
      and keeps everything else in its order. */
  lemma RemoveFirstSpec(ds: seq<Binding>, d: Binding)
    ensures d in ds ==> multiset(RemoveFirst(ds, d)) == multiset(ds) - multiset{d}
    ensures d in ds ==> exists k :: 0 <= k < |ds| && ds[k] == d && d !in ds[..k] &&
                                     RemoveFirst(ds, d) == ds[..k] + ds[k + 1..]
  {
    var k := Find(ds, d);
    if k < |ds| {
      assert ds == ds[..k] + [ds[k]] + ds[k + 1..];
      assert ds[..k] + ds[k + 1..] == EraseAt(ds, k);
      assert d !in ds[..k];
    }
  }

  /** Removing a binding just added to a list that did not hold it restores the list. */
  lemma RemoveUndoesAdd(ds: seq<Binding>, d: Binding)
    requires d !in ds
    ensures RemoveFirst(ds + [d], d) == ds
  {
  }

  /** Removing leaves the invocation order of the remaining bindings as it was:
      their calls are those of the original list with the removed one's call taken out. */
  lemma {:induction false} RemoveKeepsCallOrder<A>(ds: seq<Binding>, d: Binding, args: A)
    requires AllValid(ds)
    ensures AllValid(RemoveFirst(ds, d))
    ensures var k := Find(ds, d);
            Calls(RemoveFirst(ds, d), args) ==
            if k < |ds| then Calls(ds, args)[..k] + Calls(ds, args)[k + 1..] else Calls(ds, args)
  {
    var k := Find(ds, d);
    if k < |ds| {
      var r := EraseAt(ds, k);
      assert AllValid(r) by {
        forall i | 0 <= i < |r| ensures r[i].IsValid() {
          if i < k { assert r[i] == ds[i]; } else { assert r[i] == ds[i + 1]; }
        }
      }
      var cs := Calls(ds, args);
      var lhs, rhs := Calls(r, args), cs[..k] + cs[k + 1..];
      forall i | 0 <= i < |lhs| ensures lhs[i] == rhs[i] {
        if i < k { assert rhs[i] == cs[i]; } else { assert rhs[i] == cs[i + 1]; }
      }
    }
  }

  /** Three handlers added in order are called in that order and the third one's result
      is returned; after removing the second, only the first and the third are called. */
  lemma ThreeHandlers<A, R>(h1: Binding, h2: Binding, h3: Binding, args: A, call: Dispatch<A, R>, zero: R)
    requires h1.IsValid() && h2.IsValid() && h3.IsValid()
    ensures Calls([h1, h2, h3], args) == [h1.CallWith(args), h2.CallWith(args), h3.CallWith(args)]
    ensures Broadcast([h1, h2, h3], args, call, zero) == h3.ResultOf(args, call)
    ensures RemoveFirst([h1, h2, h3], h2) == [h1, h3]
    ensures Calls([h1, h3], args) == [h1.CallWith(args), h3.CallWith(args)]
    ensures Broadcast([h1, h3], args, call, zero) == h3.ResultOf(args, call)
  {
    if h1 == h2 {
      assert Find([h1, h2, h3], h2) == 0;
    } else {
      assert Find([h1, h2, h3], h2) == 1;
    }
  }

  /** A multicast delegate: a vector of delegate values, called in order. */
  class McDelegate {
    var delegates: seq<Binding>

    constructor ()
      ensures delegates == []
    {
      delegates := [];
    }

    function IsEmpty(): (r: bool)
      reads this
      ensures r <==> |delegates| == 0
    {
      delegates == []
    }

    /** `gelegate_at` and `operator[]`: the entry at an index below the size. */
    function DelegateAt(idx: nat): (d: Binding)
      reads this
      requires idx < |delegates|
      ensures d in delegates && d == delegates[idx]
    {
      delegates[idx]
    }

    /** `add` and `operator+=`: appends `d` after every existing entry. `allocates` is
        whether the vector's allocation succeeds; when it does not, nothing changes. */
    method Add(d: Binding, allocates: bool) returns (ok: bool)
      modifies this
      ensures ok == allocates
      ensures delegates == if ok then old(delegates) + [d] else old(delegates)
    {
      if !allocates {
        return false;
      }
      delegates := delegates + [d];
      return true;
    }

    /** `remove` and `operator-=`: finds the first entry equal to `d` by a linear scan,
        unbinds it, erases it and reports whether there was one. */
    method Remove(d: Binding) returns (found: bool)
      modifies this
      ensures found <==> d in old(delegates)
      ensures delegates == RemoveFirst(old(delegates), d)
    {
      if delegates == [] {
        return false;
      }
      var k := 0;
      while k < |delegates| && !delegates[k].CompareTo(d)
        invariant 0 <= k <= |delegates|
        invariant forall i :: 0 <= i < k ==> delegates[i] != d
      {
        k := k + 1;
      }
      if k < |delegates| {
        assert k == Find(delegates, d);
        delegates := delegates[k := Unbound];
        delegates := delegates[..k] + delegates[k + 1..];
        return true;
      }
      return false;
    }

    /** `operator()`: calls every entry once, in index order, and returns the last
        entry's result, or `zero` (the value-initialised result) when there is none. */
    method Invoke<A, R>(args: A, call: Dispatch<A, R>, zero: R) returns (r: R, ghost calls: seq<Call<A>>)
      requires AllValid(delegates)
      ensures calls == Calls(delegates, args)
      ensures r == Broadcast(delegates, args, call, zero)
    {
      r := zero;
      calls := [];
      var i := 0;
      while i < |delegates|
        invariant 0 <= i <= |delegates|
        invariant calls == Calls(delegates[..i], args)
        invariant Broadcast(delegates[i..], args, call, r) == Broadcast(delegates, args, call, zero)
      {
        var d := delegates[i];
        r := d.ResultOf(args, call);
        calls := calls + [d.CallWith(args)];
        assert delegates[..i + 1] == delegates[..i] + [d];
        assert delegates[i..][1..] == delegates[i + 1..];
        i := i + 1;
      }
      assert delegates[..i] == delegates;
    }
  }
}
