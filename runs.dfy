/** Draining a Python generator: the items it yields, in order, and the exception (if any)
    that ends it. Nested `for` loops over generators compose such runs; an exception stops
    everything after it, which is how the readers' pipelines behave. */
module Runs {
  import opened Results

  /** The items a generator yielded before it stopped, and the exception it stopped with;
      `None` means it was exhausted normally. */
  datatype Run<T, F> = Run(items: seq<T>, fault: Option<F>)

  /** Draining one generator and then, unless it raised, a second one. */
  function Then<T, F>(a: Run<T, F>, b: Run<T, F>): Run<T, F> {
    if a.fault.Some? then a else Run(a.items + b.items, b.fault)
  }

  /** The empty, normally ending run is neutral on both sides. */
  lemma ThenNeutral<T, F>(a: Run<T, F>)
    ensures Then(Run([], None), a) == a
    ensures Then(a, Run([], None)) == a
  {
    assert [] + a.items == a.items;
    assert a.items + [] == a.items;
  }

  /** Draining three generators in a row does not depend on the grouping. */
  lemma ThenAssociative<T, F>(a: Run<T, F>, b: Run<T, F>, c: Run<T, F>)
    ensures Then(Then(a, b), c) == Then(a, Then(b, c))
  {
    if a.fault.None? && b.fault.None? {
      assert (a.items + b.items) + c.items == a.items + (b.items + c.items);
    }
  }

  /** `for x in xs: yield from f(x)`: the runs of the items one after another, stopping at
      the first that raises. */
  function Bind<A, T, F>(xs: seq<A>, f: A -> Run<T, F>): Run<T, F>
    decreases |xs|
  {
    if xs == [] then Run([], None) else Then(Bind(xs[..|xs| - 1], f), f(xs[|xs| - 1]))
  }

  /** `for x in gen: yield from f(x)` over a generator that may itself raise after its
      items. */
  function BindRun<A, T, F>(r: Run<A, F>, f: A -> Run<T, F>): Run<T, F> {
    Then(Bind(r.items, f), Run([], r.fault))
  }

  /** The items of the runs of `xs`, front to back, ignoring their exceptions. */
  function FlatItems<A, T, F>(xs: seq<A>, f: A -> Run<T, F>): seq<T>
    decreases |xs|
  {
    if xs == [] then [] else f(xs[0]).items + FlatItems(xs[1..], f)
  }

  /** Extending a prefix by one item. */
  lemma TakeSnoc<T>(s: seq<T>, j: nat)
    requires j < |s|
    ensures s[..j + 1] == s[..j] + [s[j]]
  {
  }

  /** One more item at the end is one more run at the end. */
  lemma BindSnoc<A, T, F>(xs: seq<A>, x: A, f: A -> Run<T, F>)
    ensures Bind(xs + [x], f) == Then(Bind(xs, f), f(x))
  {
    assert (xs + [x])[..|xs|] == xs;
  }

  lemma {:induction false} FlatItemsSnoc<A, T, F>(xs: seq<A>, x: A, f: A -> Run<T, F>)
    ensures FlatItems(xs + [x], f) == FlatItems(xs, f) + f(x).items
    decreases |xs|
  {
    if xs == [] {
      assert [x][1..] == [];
    } else {
      assert (xs + [x])[1..] == xs[1..] + [x];
      FlatItemsSnoc(xs[1..], x, f);
    }
  }

  /** Once a prefix of the items has raised, the later items are never reached. */
  lemma {:induction false} BindStopped<A, T, F>(xs: seq<A>, i: nat, f: A -> Run<T, F>)
    requires i <= |xs| && Bind(xs[..i], f).fault.Some?
    ensures Bind(xs, f) == Bind(xs[..i], f)
    decreases |xs| - i
  {
    if i < |xs| {
      assert xs[..i + 1] == xs[..i] + [xs[i]];
      BindSnoc(xs[..i], xs[i], f);
      BindStopped(xs, i + 1, f);
    } else {
      assert xs[..i] == xs;
    }
  }

  /** When no item raises, the composition ends normally with every item's output in
      order. */
  lemma {:induction false} BindCompleted<A, T, F>(xs: seq<A>, f: A -> Run<T, F>)
    requires forall i | 0 <= i < |xs| :: f(xs[i]).fault.None?
    ensures Bind(xs, f) == Run(FlatItems(xs, f), None)
    decreases |xs|
  {
    if xs != [] {
      var init, last := xs[..|xs| - 1], xs[|xs| - 1];
      assert forall i | 0 <= i < |init| :: init[i] == xs[i];
      BindCompleted(init, f);
      assert xs == init + [last];
      FlatItemsSnoc(init, last, f);
    }
  }

  /** When item `k` is the first to raise, the composition yields everything before it and
      what item `k` yielded, then raises item `k`'s exception. */
  lemma BindFirstFault<A, T, F>(xs: seq<A>, f: A -> Run<T, F>, k: nat)
    requires k < |xs| && f(xs[k]).fault.Some?
    requires forall i | 0 <= i < k :: f(xs[i]).fault.None?
    ensures Bind(xs, f) == Run(FlatItems(xs[..k], f) + f(xs[k]).items, f(xs[k]).fault)
  {
    var prefix := xs[..k];
    assert forall i | 0 <= i < |prefix| :: prefix[i] == xs[i];
    BindCompleted(prefix, f);
    assert xs[..k + 1] == prefix + [xs[k]];
    BindSnoc(prefix, xs[k], f);
    BindStopped(xs, k + 1, f);
  }

  /** When no item yields anything, neither does the composition. */
  lemma {:induction false} BindSilent<A, T, F>(xs: seq<A>, f: A -> Run<T, F>)
    requires forall i | 0 <= i < |xs| :: f(xs[i]).items == []
    ensures Bind(xs, f).items == []
    decreases |xs|
  {
    if xs != [] {
      var init := xs[..|xs| - 1];
      assert forall i | 0 <= i < |init| :: init[i] == xs[i];
      BindSilent(init, f);
    }
  }

  /** `for x in gen: yield from f(x)` when neither the generator nor any item raises. */
  lemma BindRunCompleted<A, T, F>(r: Run<A, F>, f: A -> Run<T, F>)
    requires r.fault.None?
    requires forall i | 0 <= i < |r.items| :: f(r.items[i]).fault.None?
    ensures BindRun(r, f) == Run(FlatItems(r.items, f), None)
  {
    BindCompleted(r.items, f);
    ThenNeutral(Bind(r.items, f));
  }

  /** The generator's own exception comes after the items' output, and only when no item
      raised. */
  lemma BindRunOfItems<A, T, F>(r: Run<A, F>, f: A -> Run<T, F>)
    ensures Bind(r.items, f).fault.Some? ==> BindRun(r, f) == Bind(r.items, f)
    ensures Bind(r.items, f).fault.None? ==> BindRun(r, f) == Run(Bind(r.items, f).items, r.fault)
  {
    assert Bind(r.items, f).items + [] == Bind(r.items, f).items;
  }

  /** A generator that raises after its items raises after all the items' output, unless an
      item raised first. */
  lemma BindRunSourceFault<A, T, F>(r: Run<A, F>, f: A -> Run<T, F>)
    requires r.fault.Some?
    requires forall i | 0 <= i < |r.items| :: f(r.items[i]).fault.None?
    ensures BindRun(r, f) == Run(FlatItems(r.items, f), r.fault)
  {
    BindCompleted(r.items, f);
    assert FlatItems(r.items, f) + [] == FlatItems(r.items, f);
  }

  /** `[y for x in xs for y in f(x)]`: the outputs of the items, front to back, when
      nothing raises. */
  function FlatMap<A, T>(xs: seq<A>, f: A -> seq<T>): seq<T>
    decreases |xs|
  {
    if xs == [] then [] else FlatMap(xs[..|xs| - 1], f) + f(xs[|xs| - 1])
  }

  /** When every item's run ends normally with the output `g` gives it, the composition
      ends normally with the outputs of the items in order. */
  lemma {:induction false} BindCompletedFlatMap<A, T, F>(xs: seq<A>, f: A -> Run<T, F>, g: A -> seq<T>)
    requires forall i | 0 <= i < |xs| :: f(xs[i]) == Run(g(xs[i]), None)
    ensures Bind(xs, f) == Run(FlatMap(xs, g), None)
    decreases |xs|
  {
    if xs != [] {
      var init := xs[..|xs| - 1];
      assert forall i | 0 <= i < |init| :: init[i] == xs[i];
      BindCompletedFlatMap(init, f, g);
    }
  }

  /** The same for a generator that itself ends normally. */
  lemma BindRunCompletedFlatMap<A, T, F>(r: Run<A, F>, f: A -> Run<T, F>, g: A -> seq<T>)
    requires r.fault.None?
    requires forall i | 0 <= i < |r.items| :: f(r.items[i]) == Run(g(r.items[i]), None)
    ensures BindRun(r, f) == Run(FlatMap(r.items, g), None)
  {
    BindCompletedFlatMap(r.items, f, g);
    ThenNeutral(Bind(r.items, f));
  }

  /** The elements of the pages, page by page. */
  function Flatten<T>(pages: seq<seq<T>>): seq<T>
    decreases |pages|
  {
    if pages == [] then [] else pages[0] + Flatten(pages[1..])
  }

  lemma {:induction false} FlattenSnoc<T>(pages: seq<seq<T>>, page: seq<T>)
    ensures Flatten(pages + [page]) == Flatten(pages) + page
    decreases |pages|
  {
    if pages == [] {
      assert [page][1..] == [];
    } else {
      assert (pages + [page])[1..] == pages[1..] + [page];
      FlattenSnoc(pages[1..], page);
    }
  }

  /** Page `i`'s elements come, in their order, after those of every earlier page and
      before those of every later one. */
  lemma {:induction false} FlattenAt<T>(pages: seq<seq<T>>, i: nat)
    requires i < |pages|
    ensures Flatten(pages) == Flatten(pages[..i]) + pages[i] + Flatten(pages[i + 1..])
    decreases i
  {
    if i == 0 {
      assert pages[..0] == [];
    } else {
      FlattenAt(pages[1..], i - 1);
      assert pages[1..][..i - 1] == pages[1..i];
      assert pages[1..][i - 1] == pages[i];
      assert pages[1..][i..] == pages[i + 1..];
      assert pages[..i][1..] == pages[1..i];
    }
  }

  /** `for x in xs: if keep(x): yield x`. */
  function Filter<T>(xs: seq<T>, keep: T -> bool): (r: seq<T>)
    ensures |r| <= |xs|
    decreases |xs|
  {
    if xs == [] then []
    else
      var init, x := xs[..|xs| - 1], xs[|xs| - 1];
      Filter(init, keep) + (if keep(x) then [x] else [])
  }

  /** One more item is one more output item when it is kept. */
  lemma FilterSnoc<T>(xs: seq<T>, x: T, keep: T -> bool)
    ensures Filter(xs + [x], keep) == Filter(xs, keep) + (if keep(x) then [x] else [])
  {
    assert (xs + [x])[..|xs|] == xs;
  }

  /** An item is output exactly when it is an input item that is kept. */
  lemma {:induction false} FilterMembers<T>(xs: seq<T>, keep: T -> bool)
    ensures forall x :: x in Filter(xs, keep) <==> x in xs && keep(x)
    decreases |xs|
  {
    if xs != [] {
      var init, x := xs[..|xs| - 1], xs[|xs| - 1];
      FilterMembers(init, keep);
      assert xs == init + [x];
    }
  }

  /** Filtering keeps the input order: the output of a concatenation is the output of each
      part, one after the other. */
  lemma {:induction false} FilterAppend<T>(a: seq<T>, b: seq<T>, keep: T -> bool)
    ensures Filter(a + b, keep) == Filter(a, keep) + Filter(b, keep)
    decreases |b|
  {
    if b == [] {
      assert a + b == a;
    } else {
      var init, x := b[..|b| - 1], b[|b| - 1];
      assert b == init + [x];
      assert a + b == (a + init) + [x];
      FilterSnoc(a + init, x, keep);
      FilterSnoc(init, x, keep);
      FilterAppend(a, init, keep);
    }
  }
}
