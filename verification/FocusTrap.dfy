/**
 The modal focus trap's tree walk: opening a dialog makes the rest of the page inert by
 marking the siblings met on the way up to the body, and closing takes exactly those
 marks off again.
 */
module FocusTrap {

  class Element {
    var parentElement: Element?
    var children: seq<Element>
    /** Whether the element carries the `inert` attribute. */
    var inert: bool
    ghost const depth: nat
  }

  /** How the elements hang together, as a value. */
  datatype Shape = Shape(nodes: set<Element>, parent: map<Element, Element?>, children: map<Element, seq<Element>>)

  ghost function ShapeOf(doc: set<Element>): Shape
    reads doc`parentElement, doc`children
  {
    Shape(doc, map e | e in doc :: e.parentElement, map e | e in doc :: e.children)
  }

  /** The elements of a document, or of several detached trees. */
  ghost predicate Forest(page: Shape) {
    && page.parent.Keys == page.nodes && page.children.Keys == page.nodes
    && forall e | e in page.nodes ::
         && (forall c | c in page.children[e] :: c in page.nodes && page.parent[c] == e)
         && (page.parent[e] != null ==>
               && page.parent[e] in page.nodes && e in page.children[page.parent[e]]
               && page.parent[e].depth < e.depth)
  }

  /** `n` is `a` or lies below it. */
  ghost predicate Within(page: Shape, a: Element, n: Element)
    requires Forest(page) && n in page.nodes
    decreases n.depth
  {
    n == a || (page.parent[n] != null && Within(page, a, page.parent[n]))
  }

  /** Where a walk up from `n` ends: at the body, or at the root of a tree the body is not
      above. */
  ghost function Top(page: Shape, body: Element, n: Element): (top: Element)
    requires Forest(page) && n in page.nodes
    ensures top in page.nodes
    decreases n.depth
  {
    if n == body || page.parent[n] == null then n else Top(page, body, page.parent[n])
  }

  /** A child of a proper ancestor of the dialog, below `top`, that is not itself an
      ancestor. */
  ghost predicate BesideChain(page: Shape, top: Element, dialog: Element, e: Element)
    requires Forest(page) && dialog in page.nodes && e in page.nodes
  {
    && page.parent[e] != null && page.parent[e] != dialog
    && Within(page, top, page.parent[e])
    && Within(page, page.parent[e], dialog)
    && !Within(page, e, dialog)
  }

  lemma {:induction false} WithinDepth(page: Shape, a: Element, n: Element)
    requires Forest(page) && n in page.nodes && Within(page, a, n)
    ensures a in page.nodes && (a == n || a.depth < n.depth)
    decreases n.depth
  {
    if n != a { WithinDepth(page, a, page.parent[n]); }
  }

  lemma {:induction false} TopIsAbove(page: Shape, body: Element, n: Element)
    requires Forest(page) && n in page.nodes
    ensures Within(page, Top(page, body, n), n)
    ensures Within(page, body, n) ==> Top(page, body, n) == body
    decreases n.depth
  {
    if n != body && page.parent[n] != null { TopIsAbove(page, body, page.parent[n]); }
  }

  lemma {:induction false} WithinTransitive(page: Shape, a: Element, b: Element, n: Element)
    requires Forest(page) && n in page.nodes && b in page.nodes && Within(page, a, b) && Within(page, b, n)
    ensures Within(page, a, n)
    decreases n.depth
  {
    if n != b { WithinTransitive(page, a, b, page.parent[n]); }
  }

  /** The ancestors of one element form a chain. */
  lemma {:induction false} AncestorsCompare(page: Shape, a: Element, b: Element, n: Element)
    requires Forest(page) && n in page.nodes && a in page.nodes && b in page.nodes
    requires Within(page, a, n) && Within(page, b, n)
    ensures Within(page, a, b) || Within(page, b, a)
    decreases n.depth
  {
    if n != a && n != b { AncestorsCompare(page, a, b, page.parent[n]); }
  }

  /** Of the children of one parent only one is an ancestor of the dialog. */
  lemma OneChildOnChain(page: Shape, a: Element, b: Element, dialog: Element)
    requires Forest(page) && a in page.nodes && b in page.nodes && dialog in page.nodes
    requires page.parent[a] != null && page.parent[a] == page.parent[b]
    requires Within(page, a, dialog) && Within(page, b, dialog)
    ensures a == b
  {
    AncestorsCompare(page, a, b, dialog);
    if a != b {
      if Within(page, a, b) { WithinDepth(page, a, page.parent[b]); } else { WithinDepth(page, b, page.parent[a]); }
    }
  }

  /** Going one step up, the siblings of `node` are what is new beside the chain. */
  lemma OneStepUp(page: Shape, node: Element, dialog: Element, e: Element)
    requires Forest(page) && node in page.nodes && dialog in page.nodes && e in page.nodes
    requires Within(page, node, dialog) && page.parent[node] != null
    ensures Within(page, page.parent[node], dialog)
    ensures BesideChain(page, page.parent[node], dialog, e) <==>
              BesideChain(page, node, dialog, e) || (e in page.children[page.parent[node]] && e != node)
  {
    var parent := page.parent[node];
    assert Within(page, parent, node);
    WithinTransitive(page, parent, node, dialog);
    if page.parent[e] == null {
    } else if page.parent[e] == parent {
      WithinDepth(page, node, dialog);
      if Within(page, e, dialog) { OneChildOnChain(page, e, node, dialog); }
      if Within(page, node, parent) { WithinDepth(page, node, parent); }
    } else {
      var p := page.parent[e];
      if Within(page, parent, p) && Within(page, p, dialog) {
        AncestorsCompare(page, p, node, dialog);
        if Within(page, p, node) && p != node {
          WithinDepth(page, p, parent);
          WithinDepth(page, parent, p);
        }
      }
      if Within(page, node, p) { WithinTransitive(page, parent, node, p); }
    }
  }

  /** Every element of the page that is neither an ancestor of the dialog nor inside it
      lies in the subtree of one beside the chain. */
  lemma {:induction false} BackgroundIsCovered(page: Shape, body: Element, dialog: Element, n: Element)
    requires Forest(page) && dialog in page.nodes && n in page.nodes
    requires Within(page, body, dialog) && Within(page, body, n)
    requires !Within(page, dialog, n) && !Within(page, n, dialog)
    ensures exists a :: a in page.nodes && Within(page, a, n) && BesideChain(page, body, dialog, a)
    decreases n.depth
  {
    var p := page.parent[n];
    if Within(page, p, dialog) {
      assert BesideChain(page, body, dialog, n);
    } else {
      BackgroundIsCovered(page, body, dialog, p);
      var a :| a in page.nodes && Within(page, a, p) && BesideChain(page, body, dialog, a);
      assert Within(page, a, n);
    }
  }

  /** The dialog, its ancestors and what it contains are not beside the chain. */
  lemma ChainIsSpared(page: Shape, body: Element, dialog: Element, n: Element)
    requires Forest(page) && dialog in page.nodes && n in page.nodes
    requires Within(page, n, dialog) || Within(page, dialog, n)
    ensures !BesideChain(page, body, dialog, n)
  {
    if Within(page, dialog, n) && n != dialog && Within(page, page.parent[n], dialog) {
      WithinDepth(page, dialog, page.parent[n]);
      WithinDepth(page, page.parent[n], dialog);
    }
  }

  /** Inside the dialog nothing is beside the chain. */
  lemma NothingBesideDialog(page: Shape, dialog: Element, e: Element)
    requires Forest(page) && dialog in page.nodes && e in page.nodes
    ensures !BesideChain(page, dialog, dialog, e)
  {
    var p := page.parent[e];
    if p != null && Within(page, dialog, p) && Within(page, p, dialog) {
      WithinDepth(page, dialog, p);
      WithinDepth(page, p, dialog);
    }
  }

  /** The elements beside the chain from the dialog up to `top`. */
  ghost function Beside(page: Shape, top: Element, dialog: Element): set<Element>
    requires Forest(page) && dialog in page.nodes
  {
    set e | e in page.nodes && BesideChain(page, top, dialog, e)
  }

  lemma BesideGrows(page: Shape, node: Element, dialog: Element)
    requires Forest(page) && node in page.nodes && dialog in page.nodes
    requires Within(page, node, dialog) && page.parent[node] != null
    ensures Within(page, page.parent[node], dialog)
    ensures Beside(page, page.parent[node], dialog) ==
              Beside(page, node, dialog) + (set e | e in page.children[page.parent[node]] && e != node)
  {
    OneStepUp(page, node, dialog, node);
    forall e | e in page.nodes
      ensures e in Beside(page, page.parent[node], dialog) <==>
                e in Beside(page, node, dialog) || (e in page.children[page.parent[node]] && e != node)
    {
      OneStepUp(page, node, dialog, e);
    }
  }

  /** With these marks, everything under `top` but the dialog and its chain is inert,
      itself or through an ancestor. */
  ghost predicate BackgroundInert(page: Shape, top: Element, dialog: Element, inert: set<Element>)
    requires Forest(page) && dialog in page.nodes
  {
    forall n | n in page.nodes && Within(page, top, n) && !Within(page, dialog, n) && !Within(page, n, dialog) ::
      exists a :: a in page.nodes && a in inert && Within(page, a, n)
  }

  /** The dialog, its chain, its contents and what is not under `top` are marked as before. */
  ghost predicate OthersUnchanged(page: Shape, top: Element, dialog: Element, before: set<Element>, after: set<Element>)
    requires Forest(page) && dialog in page.nodes
  {
    forall n | n in page.nodes && (Within(page, n, dialog) || Within(page, dialog, n) || !Within(page, top, n)) ::
      n in after <==> n in before
  }

  /** Marking what is beside the chain makes the background inert and leaves the rest. */
  lemma MarksAreRight(page: Shape, top: Element, dialog: Element, before: set<Element>)
    requires Forest(page) && dialog in page.nodes && Within(page, top, dialog)
    ensures BackgroundInert(page, top, dialog, before + Beside(page, top, dialog))
    ensures OthersUnchanged(page, top, dialog, before, before + Beside(page, top, dialog))
  {
    var after := before + Beside(page, top, dialog);
    forall n | n in page.nodes && Within(page, top, n) && !Within(page, dialog, n) && !Within(page, n, dialog)
      ensures exists a :: a in page.nodes && a in after && Within(page, a, n)
    {
      BackgroundIsCovered(page, top, dialog, n);
      var a :| a in page.nodes && Within(page, a, n) && BesideChain(page, top, dialog, a);
      assert a in after;
    }
    forall n | n in page.nodes && (Within(page, n, dialog) || Within(page, dialog, n) || !Within(page, top, n))
      ensures n in after <==> n in before
    {
      if Within(page, n, dialog) || Within(page, dialog, n) { ChainIsSpared(page, top, dialog, n); }
    }
  }

  lemma BesideStartsEmpty(page: Shape, dialog: Element)
    requires Forest(page) && dialog in page.nodes
    ensures Beside(page, dialog, dialog) == {}
  {
    forall e | e in page.nodes ensures !BesideChain(page, dialog, dialog, e) {
      NothingBesideDialog(page, dialog, e);
    }
  }

  // Runs of the trap. Which elements an opening reaches is its parameter, so the page may
  // be rebuilt between any two calls.

  /** What is inert, and what of it the trap will clear. */
  datatype Marks<!E> = Marks(inert: set<E>, inerted: set<E>)

  datatype Call<!E> = Open(reached: set<E>) | Close

  ghost function Apply<E>(m: Marks<E>, call: Call<E>): Marks<E> {
    match call
    case Open(reached) => Marks(m.inert + reached, reached - m.inert)
    case Close => Marks(m.inert - m.inerted, {})
  }

  ghost function Run<E>(m: Marks<E>, calls: seq<Call<E>>): Marks<E>
    decreases calls
  {
    if calls == [] then m else Run(Apply(m, calls[0]), calls[1..])
  }

  /** No opening finds marks of an earlier opening still on the page. */
  ghost predicate ClosedBeforeReopened<E>(m: Marks<E>, calls: seq<Call<E>>)
    decreases calls
  {
    calls == [] ||
    ((calls[0].Open? ==> m.inerted == {}) && ClosedBeforeReopened(Apply(m, calls[0]), calls[1..]))
  }

  /** Marks that are no longer the trap's to clear stay for good. */
  lemma {:induction false} LostMarksStay<E>(m: Marks<E>, calls: seq<Call<E>>, e: E)
    requires e in m.inert && e !in m.inerted
    ensures e in Run(m, calls).inert && e !in Run(m, calls).inerted
    decreases calls
  {
    if calls != [] { LostMarksStay(Apply(m, calls[0]), calls[1..], e); }
  }

  /** The trap only ever adds marks, and takes off no mark that was there before it. */
  lemma {:induction false} EarlierMarksStay<E>(m: Marks<E>, calls: seq<Call<E>>, before: set<E>)
    requires before <= m.inert && before !! m.inerted && m.inerted <= m.inert
    ensures before <= Run(m, calls).inert && before !! Run(m, calls).inerted
    decreases calls
  {
    if calls != [] { EarlierMarksStay(Apply(m, calls[0]), calls[1..], before); }
  }

  lemma {:induction false} RestoredFrom<E>(m: Marks<E>, calls: seq<Call<E>>)
    requires m.inerted <= m.inert
    ensures Apply(Run(m, calls), Close).inert == m.inert - m.inerted <==> ClosedBeforeReopened(m, calls)
    decreases calls
  {
    if calls != [] {
      var next := Apply(m, calls[0]);
      RestoredFrom(next, calls[1..]);
      if calls[0].Open? && m.inerted != {} {
        var lost :| lost in m.inerted;
        LostMarksStay(next, calls[1..], lost);
        assert lost in Apply(Run(m, calls), Close).inert;
      } else if calls[0].Open? {
        assert next.inert - next.inerted == m.inert;
      } else {
        assert next.inert - next.inerted == m.inert - m.inerted;
      }
    }
  }

  /** Closing brings back the page as it was before the first opening exactly when no
      dialog was opened over the marks of another. */
  lemma CloseRestoresIffNotNested<E>(inert: set<E>, calls: seq<Call<E>>)
    ensures Run(Marks(inert, {}), calls + [Close]).inert == inert <==> ClosedBeforeReopened(Marks(inert, {}), calls)
    ensures inert <= Run(Marks(inert, {}), calls).inert
  {
    RestoredFrom(Marks(inert, {}), calls);
    RunThen(Marks(inert, {}), calls, Close);
    EarlierMarksStay(Marks(inert, {}), calls, inert);
  }

  lemma {:induction false} RunThen<E>(m: Marks<E>, calls: seq<Call<E>>, call: Call<E>)
    ensures Run(m, calls + [call]) == Apply(Run(m, calls), call)
    decreases calls
  {
    if calls == [] {
      assert [call][1..] == [];
    } else {
      assert (calls + [call])[1..] == calls[1..] + [call];
      RunThen(Apply(m, calls[0]), calls[1..], call);
    }
  }

  lemma OneMoreLevel<E>(start: set<E>, reached: set<E>, siblings: set<E>, before: set<E>, after: set<E>)
    requires before == start + reached && after == before + siblings
    ensures after == start + (reached + siblings)
    ensures (reached - start) + (after - before) == (reached + siblings) - start
  {
  }

  ghost predicate Distinct(elements: seq<Element>) {
    forall i, j | 0 <= i < j < |elements| :: elements[i] != elements[j]
  }

  ghost function Elements(elements: seq<Element>): set<Element> {
    set e | e in elements
  }

  /** The elements carrying the attribute. */
  ghost function Inert(doc: set<Element>): set<Element>
    reads doc`inert
  {
    set e | e in doc && e.inert
  }

  class Trap {
    /** The elements the last `Open` made inert. */
    var inerted: seq<Element>

    constructor ()
      ensures inerted == []
    {
      inerted := [];
    }

    ghost function View(doc: set<Element>): Marks<Element>
      reads this, doc`inert
    {
      Marks(Inert(doc), Elements(inerted))
    }

    /** Make the siblings of `node` inert and note those that were not. */
    method MarkSiblings(doc: set<Element>, parent: Element, node: Element, marked: seq<Element>)
      returns (all: seq<Element>)
      requires parent in doc && forall c | c in parent.children :: c in doc
      requires Distinct(marked) && Elements(marked) <= Inert(doc)
      modifies doc`inert
      ensures Inert(doc) == old(Inert(doc)) + set e | e in parent.children && e != node
      ensures Elements(all) == Elements(marked) + (Inert(doc) - old(Inert(doc)))
      ensures Distinct(all)
    {
      all := marked;
      var siblings := parent.children;
      for i := 0 to |siblings|
        invariant Inert(doc) == old(Inert(doc)) + set e | e in siblings[..i] && e != node
        invariant Elements(all) == Elements(marked) + (Inert(doc) - old(Inert(doc)))
        invariant Distinct(all)
      {
        var sibling := siblings[i];
        assert sibling in parent.children;
        assert siblings[..i + 1] == siblings[..i] + [sibling];
        ghost var before := Inert(doc);
        if sibling != node && !sibling.inert {
          assert sibling !in Elements(all);
          sibling.inert := true;
          all := all + [sibling];
        }
        assert Inert(doc) == before + if sibling != node then {sibling} else {};
      }
      assert siblings[..|siblings|] == siblings;
    }

    /** Walk up from the dialog and make each sibling on the way inert; returns those
        that were not inert already. */
    method InertBackground(doc: set<Element>, body: Element, dialog: Element) returns (marked: seq<Element>)
      requires Forest(ShapeOf(doc)) && dialog in doc
      modifies doc`inert
      ensures var page := old(ShapeOf(doc));
              && Inert(doc) == old(Inert(doc)) + Beside(page, Top(page, body, dialog), dialog)
              && Elements(marked) == Beside(page, Top(page, body, dialog), dialog) - old(Inert(doc))
      ensures Distinct(marked)
    {
      marked := [];
      var node := dialog;
      ghost var page, start := ShapeOf(doc), Inert(doc);
      BesideStartsEmpty(page, dialog);
      while node != body && node.parentElement != null
        invariant node in doc && Within(page, node, dialog) && Top(page, body, node) == Top(page, body, dialog)
        invariant Inert(doc) == start + Beside(page, node, dialog)
        invariant Elements(marked) == Beside(page, node, dialog) - start
        invariant Distinct(marked)
        decreases node.depth
      {
        ghost var here := Inert(doc);
        var parent := node.parentElement;
        ghost var siblings := set e | e in parent.children && e != node;
        assert page.parent[node] == parent && page.children[parent] == parent.children;
        BesideGrows(page, node, dialog);
        marked := MarkSiblings(doc, parent, node, marked);
        OneMoreLevel(start, Beside(page, node, dialog), siblings, here, Inert(doc));
        node := parent;
      }
    }

    /** Open a dialog, if there is one: afterwards everything else under the page's top is
        inert, itself or through an ancestor, and nothing on the dialog's chain, inside it
        or off the page has changed. */
    method Open(doc: set<Element>, body: Element, dialog: Element?)
      requires Forest(ShapeOf(doc)) && (dialog != null ==> dialog in doc)
      modifies this, doc`inert
      ensures dialog == null ==> View(doc) == old(View(doc)) && inerted == old(inerted)
      ensures dialog != null ==>
        var page := old(ShapeOf(doc));
        var top := Top(page, body, dialog);
        && View(doc) == Apply(old(View(doc)), Call.Open(Beside(page, top, dialog)))
        && Distinct(inerted)
        && (Within(page, body, dialog) ==> top == body)
        && BackgroundInert(page, top, dialog, Inert(doc))
        && OthersUnchanged(page, top, dialog, old(Inert(doc)), Inert(doc))
    {
      if dialog == null {
        return;
      }
      ghost var page := ShapeOf(doc);
      TopIsAbove(page, body, dialog);
      MarksAreRight(page, Top(page, body, dialog), dialog, Inert(doc));
      inerted := InertBackground(doc, body, dialog);
    }

    /** Close the dialog: the marks of the last `Open` come off, and no others. */
    method Close(doc: set<Element>)
      requires Elements(inerted) <= doc
      modifies this, doc`inert
      ensures View(doc) == Apply(old(View(doc)), Call.Close)
    {
      for i := 0 to |inerted|
        invariant inerted == old(inerted)
        invariant Inert(doc) == old(Inert(doc)) - Elements(inerted[..i])
      {
        assert inerted[i] in Elements(inerted);
        assert inerted[..i + 1] == inerted[..i] + [inerted[i]];
        ghost var before, here := Inert(doc), inerted[i];
        inerted[i].inert := false;
        assert Inert(doc) == before - {here};
      }
      assert inerted[..|inerted|] == inerted;
      inerted := [];
    }
  }
}
