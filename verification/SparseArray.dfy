/** Sparse arrays as a ring of elements with a roving pointer. */
module SparseArray {
  import opened SparseMaps
  import opened Options

  class Element {
    var ind: int
    var value: string
    var next: Element?
    var prev: Element?

    constructor (ind: int, value: string)
      ensures this.ind == ind && this.value == value && next == null && prev == null
    {
      this.ind, this.value, next, prev := ind, value, null, null;
    }
  }

  class Array {
    var maxIndex: int
    var numElements: int
    var head: Element
    var lastref: Element?
    ghost var nodes: set<Element>
    ghost var at: map<int, Element>
    ghost var contents: map<int, string>

    /** Elements and indices are in one-to-one correspondence, and hold the contents. */
    ghost predicate Keyed()
      reads `head, `nodes, `at, `contents, head`ind, nodes`ind, nodes`value
    {
      && head !in nodes && head.ind == -1 && at.Keys == contents.Keys
      && (forall x :: x in nodes ==> x.ind >= 0 && x.ind in at && at[x.ind] == x)
      && (forall i :: i in at ==> at[i] in nodes && at[i].ind == i && at[i].value == contents[i])
    }

    /** The links go round, forwards and backwards. */
    ghost predicate Linked()
      reads `head, `nodes, head`next, head`prev, nodes`next, nodes`prev
    {
      && (forall x {:trigger x.next} :: x in nodes + {head} ==> x.next in nodes + {head} && x.next.prev == x)
      && (forall x {:trigger x.prev} :: x in nodes + {head} ==> x.prev in nodes + {head} && x.prev.next == x)
    }

    /** No index lies between an element and the next one; after the last there is none. */
    ghost predicate Gap(x: Element)
      reads `head, `nodes, `at, x`next, x`ind, nodes`ind
    {
      x.next != null &&
      if x.next == head then forall i :: i in at ==> i <= x.ind
      else x.next in nodes && x.ind < x.next.ind && forall i :: i in at ==> i <= x.ind || i >= x.next.ind
    }

    ghost predicate Ring()
      reads `head, `nodes, `at, `contents, head, nodes
    {
      Keyed() && Linked() && forall x {:trigger Gap(x)} :: x in nodes + {head} ==> Gap(x)
    }

    /** A well-formed ring, exact counts, and a roving pointer that is null or in the ring. */
    ghost predicate Valid()
      reads this, head, nodes
    {
      && Ring() && numElements == |contents| && maxIndex == head.prev.ind
      && (lastref == null || lastref in nodes)
    }

    constructor ()
      ensures Valid() && Ring() && contents == map[] && fresh(head) && nodes == {} && lastref == null
    {
      maxIndex, numElements, lastref := -1, 0, null;
      nodes, at, contents := {}, map[], map[];
      head := new Element(-1, "");
      new;
      head.prev := head;
      head.next := head;
    }

    // ----- linking in -----

    /** elem has been linked in between its neighbours. */
    twostate predicate Hooked(elem: Element)
      reads this, head, nodes, elem
    {
      var p, q := elem.prev, elem.next;
      && head == old(head) && elem !in old(nodes) && elem != head
      && p in old(nodes) + {head} && q in old(nodes) + {head} && q == old(p.next)
      && nodes == old(nodes) + {elem} && at == old(at)[elem.ind := elem] && contents == old(contents)[elem.ind := elem.value]
      && elem.ind >= 0 && old(p.ind) < elem.ind && (q == head || elem.ind < old(q.ind))
      && forall x :: x in old(nodes) + {head} ==>
           && x.ind == old(x.ind) && x.value == old(x.value)
           && x.next == (if x == p then elem else old(x.next)) && x.prev == (if x == q then elem else old(x.prev))
    }

    twostate lemma HookKeyed(elem: Element)
      requires old(Ring()) && Hooked(elem)
      ensures Keyed() && elem.ind !in old(contents)
    {
      var p := elem.prev;
      assert old(Gap(p));
    }

    twostate lemma HookLinked(elem: Element)
      requires old(Ring()) && Hooked(elem)
      ensures Linked()
    {
    }

    twostate lemma HookGaps(elem: Element)
      requires old(Ring()) && Hooked(elem)
      ensures forall x {:trigger Gap(x)} :: x in nodes + {head} ==> Gap(x)
    {
      var p := elem.prev;
      assert old(Gap(p));
      forall x | x in nodes + {head}
        ensures Gap(x)
      {
        if x != elem {
          assert old(Gap(x));
        }
      }
    }

    method AddBefore(ae: Element, elem: Element)
      requires Ring() && ae in nodes + {head} && elem !in nodes && elem != head
      requires elem.ind >= 0 && ae.prev.ind < elem.ind && (ae == head || elem.ind < ae.ind)
      modifies ae`prev, ae.prev`next, elem`prev, elem`next, this`nodes, this`at, this`contents
      ensures head.prev == if ae == head then elem else old(head.prev)
      ensures Ring() && nodes == old(nodes) + {elem} && elem.ind !in old(contents)
      ensures contents == old(contents)[elem.ind := elem.value]
    {
      hide Array.Gap, Array.Keyed;
      ae.prev.next := elem;
      elem.prev := ae.prev;
      ae.prev := elem;
      elem.next := ae;
      nodes, at, contents := nodes + {elem}, at[elem.ind := elem], contents[elem.ind := elem.value];
      HookKeyed(elem);
      HookLinked(elem);
      HookGaps(elem);
    }

    method AddAfter(ae: Element, elem: Element)
      requires Ring() && ae in nodes + {head} && elem !in nodes && elem != head
      requires elem.ind >= 0 && ae.ind < elem.ind && (ae.next == head || elem.ind < ae.next.ind)
      modifies ae`next, ae.next`prev, elem`prev, elem`next, this`nodes, this`at, this`contents
      ensures head.prev == if old(ae.next) == head then elem else old(head.prev)
      ensures Ring() && nodes == old(nodes) + {elem} && elem.ind !in old(contents)
      ensures contents == old(contents)[elem.ind := elem.value]
    {
      hide Array.Gap, Array.Keyed;
      ae.next.prev := elem;
      elem.next := ae.next;
      elem.prev := ae;
      ae.next := elem;
      nodes, at, contents := nodes + {elem}, at[elem.ind := elem], contents[elem.ind := elem.value];
      HookKeyed(elem);
      HookLinked(elem);
      HookGaps(elem);
    }

    // ----- taking out -----

    /** elem has been taken out from between its neighbours. */
    twostate predicate Unhooked(elem: Element)
      reads this, head, nodes
    {
      var p, q := old(elem.prev), old(elem.next);
      && head == old(head) && elem in old(nodes)
      && nodes == old(nodes) - {elem} && at == old(at) - {old(elem.ind)} && contents == old(contents) - {old(elem.ind)}
      && forall x :: x in nodes + {head} ==>
           && x.ind == old(x.ind) && x.value == old(x.value)
           && x.next == (if x == p then q else old(x.next)) && x.prev == (if x == q then p else old(x.prev))
    }

    twostate lemma UnhookKeyed(elem: Element)
      requires old(Ring()) && Unhooked(elem)
      ensures Keyed()
    {
    }

    twostate lemma UnhookLinked(elem: Element)
      requires old(Ring()) && Unhooked(elem)
      ensures Linked()
    {
    }

    twostate lemma UnhookGapBefore(elem: Element)
      requires old(Ring()) && Unhooked(elem)
      ensures var p := old(elem.prev); p in nodes + {head} && Gap(p)
    {
      var p, q := old(elem.prev), old(elem.next);
      assert old(Gap(elem)) && old(Gap(p));
      assert p != elem && q != elem && p in nodes + {head} && q in nodes + {head};
      assert p.next == q && p.ind == old(p.ind) && q.ind == old(q.ind);
      assert forall i :: i in at ==> i in old(at) && i != old(elem.ind);
    }

    twostate lemma UnhookGaps(elem: Element)
      requires old(Ring()) && Unhooked(elem)
      ensures forall x {:trigger Gap(x)} :: x in nodes + {head} ==> Gap(x)
    {
      var p := old(elem.prev);
      UnhookGapBefore(elem);
      forall x | x in nodes + {head} && x != p
        ensures Gap(x)
      {
        assert old(Gap(x));
        assert x.next == old(x.next) && x.ind == old(x.ind) && x.next != elem;
        assert x.next != head ==> x.next in nodes && x.next.ind == old(x.next.ind);
      }
    }

    method Unlink(ae: Element)
      requires Ring() && ae in nodes
      modifies ae.next`prev, ae.prev`next, this`nodes, this`at, this`contents
      ensures head.prev == if ae.next == head then ae.prev else old(head.prev)
      ensures Ring() && nodes == old(nodes) - {ae} && contents == old(contents) - {ae.ind}
    {
      ae.next.prev := ae.prev;
      ae.prev.next := ae.next;
      nodes, at, contents := nodes - {ae}, at - {ae.ind}, contents - {ae.ind};
      UnhookKeyed(ae);
      UnhookLinked(ae);
      UnhookGaps(ae);
    }

    // ----- searching -----

    /** i lies between the first and the last index. */
    ghost predicate Inside(i: int)
      reads this, head, nodes
    {
      Valid() && head.next in nodes && head.prev in nodes && head.next.ind <= i <= maxIndex
    }

    lemma FirstAndLast()
      requires Ring() && contents != map[]
      ensures head.next in nodes && head.prev in nodes
    {
      assert Gap(head);
      assert Gap(head.prev);
      assert contents.Keys != {};
      assert (forall k :: k !in contents.Keys) ==> contents.Keys == {};
      var k :| k in contents.Keys;
      assert k in at;
    }

    /** Where a search for i begins, and in which direction it goes. */
    method SearchStart(i: int) returns (start: Element, forward: bool)
      requires Inside(i)
      ensures start in nodes && (if forward then start.ind <= i else i < start.ind)
    {
      start := if lastref != null then lastref else head.next;
      if i < start.ind / 2 {
        start := head.next;
        forward := true;
      } else {
        forward := i >= start.ind;
      }
    }

    /** The search of array_insert: the element with index i, or the one next to its place.
        It never runs into the head. */
    method FindPlace(i: int) returns (ae: Element, forward: bool)
      requires Inside(i)
      ensures ae in nodes
      ensures ae.ind != i ==> if forward then ae.prev.ind < i < ae.ind else ae.ind < i < ae.next.ind
    {
      ae, forward := SearchStart(i);
      while ae.ind != i && (if forward then ae.ind < i else i < ae.ind)
        invariant ae in nodes
        invariant if forward then ae.ind > i ==> ae.prev.ind < i else ae.ind < i ==> i < ae.next.ind
        decreases if forward then (if ae.ind <= i then i - ae.ind + 1 else 0) else if ae.ind >= i then ae.ind - i + 1 else 0
      {
        assert Gap(ae) && Gap(head) && Gap(head.prev) && Gap(ae.prev);
        ae := if forward then ae.next else ae.prev;
      }
    }

    /** The search of array_remove and array_reference: the element with index i, or the
        first one past its place when there is none. */
    method Seek(i: int) returns (ae: Element)
      requires Inside(i)
      ensures ae in nodes && (ae.ind == i <==> i in contents)
    {
      var forward;
      ae, forward := SearchStart(i);
      while ae.ind != i
        invariant ae in nodes && (if forward then ae.ind <= i else i <= ae.ind)
        decreases if forward then i - ae.ind else ae.ind - i
      {
        assert Gap(ae) && Gap(head) && Gap(head.prev) && Gap(ae.prev);
        ae := if forward then ae.next else ae.prev;
        if (forward && ae.ind > i) || (!forward && ae.ind < i) {
          return;
        }
      }
    }

    // ----- the operations -----

    method Insert(i: int, v: string)
      requires Valid() && i >= 0
      modifies this, head, nodes
      ensures Valid() && head == old(head) && contents == old(contents)[i := v]
      ensures forall x :: x in nodes ==> x in old(nodes) || fresh(x)
    {
      hide Array.Ring;
      var elem := new Element(i, v);
      Place(elem);
    }

    method Place(elem: Element)
      requires Valid() && elem.ind >= 0 && elem !in nodes && elem != head
      modifies this, head, nodes, elem
      ensures Valid() && head == old(head) && nodes <= old(nodes) + {elem}
      ensures contents == old(contents)[old(elem.ind) := old(elem.value)]
    {
      hide Array.Keyed, Array.Linked, Array.Gap, Array.Ring;
      HeadLinks();
      if elem.ind > maxIndex {
        HookBefore(head, elem);
      } else {
        Ends();
        if elem.ind < head.next.ind {
          HookAfter(head, elem);
        } else {
          PlaceInside(elem);
        }
      }
    }

    /** Link in before ae, keep the counts, and point the roving pointer there. */
    method HookBefore(ae: Element, elem: Element)
      requires Valid() && ae in nodes + {head} && elem !in nodes && elem != head && ae.prev != null
      requires elem.ind >= 0 && ae.prev.ind < elem.ind && (ae == head || elem.ind < ae.ind)
      modifies this, ae`prev, ae.prev`next, elem
      ensures Valid() && head == old(head) && nodes == old(nodes) + {elem}
      ensures contents == old(contents)[old(elem.ind) := old(elem.value)]
    {
      hide Array.Keyed, Array.Linked, Array.Gap, Array.Ring;
      HeadLinks();
      AddBefore(ae, elem);
      if ae == head {
        maxIndex := elem.ind;
      }
      numElements := numElements + 1;
      lastref := elem;
    }

    method HookAfter(ae: Element, elem: Element)
      requires Valid() && ae in nodes + {head} && elem !in nodes && elem != head && ae.next != null
      requires elem.ind >= 0 && ae.ind < elem.ind < ae.next.ind
      modifies this, ae`next, ae.next`prev, elem
      ensures Valid() && head == old(head) && nodes == old(nodes) + {elem}
      ensures contents == old(contents)[old(elem.ind) := old(elem.value)]
    {
      hide Array.Keyed, Array.Linked, Array.Gap, Array.Ring;
      HeadLinks();
      AddAfter(ae, elem);
      numElements := numElements + 1;
      lastref := elem;
    }

    lemma HeadLinks()
      requires Ring()
      ensures head !in nodes && head.ind == -1 && head.next in nodes + {head} && head.prev in nodes + {head}
      ensures head.next == head <==> head.prev == head
    {
    }

    /** An array with an index has a first and a last element. */
    lemma Ends()
      requires Valid() && maxIndex >= 0
      ensures head.next in nodes && head.prev in nodes && head.next.ind >= 0
    {
    }

    /** What linking in next to an element needs to know of it. */
    lemma Neighbours(ae: Element)
      requires Ring() && ae in nodes
      ensures ae != head && ae.next in nodes + {head} && ae.prev in nodes + {head} && ae.next != ae && ae.prev != ae
      ensures head.prev in nodes + {head} && (ae.ind == head.prev.ind <==> ae.next == head)
      ensures ae.ind in contents && contents[ae.ind] == ae.value && ae.prev.ind < ae.ind
    {
      assert Gap(ae);
      assert Gap(ae.prev);
    }

    method PlaceInside(elem: Element)
      requires Inside(elem.ind) && elem.ind >= 0 && elem !in nodes && elem != head
      modifies this, head, nodes, elem
      ensures Valid() && head == old(head) && nodes <= old(nodes) + {elem}
      ensures contents == old(contents)[old(elem.ind) := old(elem.value)]
    {
      hide Array.Keyed, Array.Linked, Array.Gap, Array.Ring;
      var ae, forward := FindPlace(elem.ind);
      HeadLinks();
      Neighbours(ae);
      if ae.ind == elem.ind {
        ReplaceValue(ae, elem.value);
      } else if forward {
        HookBefore(ae, elem);
      } else {
        HookAfter(ae, elem);
      }
    }

    method ReplaceValue(ae: Element, v: string)
      requires Valid() && ae in nodes
      modifies ae`value, this`contents, this`lastref
      ensures Valid() && contents == old(contents)[ae.ind := v]
    {
      hide Array.Linked, Array.Gap;
      lastref := ae;
      ae.value := v;
      contents := contents[ae.ind := v];
      assert at.Keys == contents.Keys;
      assert Keyed();
      assert |contents.Keys| == |contents| && |old(contents).Keys| == |old(contents)|;
    }

    /** The element with index i is unlinked and handed to the caller; null when there is none. */
    method Remove(i: int) returns (r: Element?)
      requires Valid()
      modifies this, head, nodes
      ensures Valid() && head == old(head) && nodes <= old(nodes) && contents == old(contents) - {i}
      ensures if i in old(contents) then r != null && r.ind == i && r.value == old(contents)[i] && r !in nodes else r == null
    {
      if numElements == 0 {
        return null;
      }
      FirstAndLast();
      assert Gap(head) && Gap(head.prev);
      if i > maxIndex || i < head.next.ind {
        return null;
      }
      var ae := Seek(i);
      if ae.ind != i {
        return null;
      }
      TakeOut(ae);
      return ae;
    }

    method TakeOut(ae: Element)
      requires Valid() && ae in nodes
      modifies this, ae.next`prev, ae.prev`next
      ensures Valid() && head == old(head) && nodes == old(nodes) - {ae} && contents == old(contents) - {ae.ind}
      ensures ae.ind in old(contents) && old(contents)[ae.ind] == ae.value
    {
      hide Array.Keyed, Array.Linked, Array.Gap, Array.Ring;
      Neighbours(ae);
      Unlink(ae);
      numElements := numElements - 1;
      maxIndex := if ae.ind == maxIndex then ae.prev.ind else maxIndex;
      lastref := if ae.next != head then ae.next else if ae.prev != head then ae.prev else null;
    }

    method Reference(i: int) returns (r: Option<string>)
      requires Valid()
      modifies this`lastref
      ensures Valid() && r == Lookup(contents, i)
    {
      if numElements == 0 {
        return None;
      }
      FirstAndLast();
      assert Gap(head) && Gap(head.prev);
      if i > maxIndex || i < head.next.ind {
        return None;
      }
      var ae := Seek(i);
      lastref := ae;
      return if ae.ind == i then Some(ae.value) else None;
    }

    method Flush()
      requires Ring()
      modifies this, head
      ensures Valid() && head == old(head) && contents == map[] && nodes == {}
    {
      hide Array.Keyed, Array.Linked, Array.Gap, Array.Ring;
      HeadLinks();
      head.next := head;
      head.prev := head;
      maxIndex, numElements, lastref := -1, 0, null;
      nodes, at, contents := {}, map[], map[];
      EmptyRing();
    }

    lemma EmptyRing()
      requires nodes == {} && at == map[] && contents == map[]
      requires head.ind == -1 && head.next == head && head.prev == head
      ensures Ring()
    {
    }

    // ----- shifting -----

    /** The elements before first have been cut off. */
    twostate predicate CutOff(first: Element)
      reads this, head, nodes
    {
      && head == old(head) && first in old(nodes)
      && nodes <= old(nodes) && (forall x :: x in old(nodes) ==> (x in nodes <==> old(x.ind) >= old(first.ind)))
      && (forall i :: i in at <==> i in old(at) && i >= old(first.ind)) && (forall i :: i in at ==> at[i] == old(at)[i])
      && (forall i :: i in contents <==> i in old(contents) && i >= old(first.ind))
      && (forall i :: i in contents ==> contents[i] == old(contents)[i])
      && head.next == first && head.prev == old(head.prev) && head.ind == old(head.ind)
      && forall x :: x in nodes ==>
           x.ind == old(x.ind) && x.value == old(x.value) && x.next == old(x.next) && x.prev == (if x == first then head else old(x.prev))
    }

    twostate lemma CutKeyed(first: Element)
      requires old(Ring()) && CutOff(first)
      ensures Keyed()
    {
      assert forall i :: i in at <==> i in contents;
      assert at.Keys == contents.Keys;
    }

    /** What an element kept its neighbours by: the next one has a larger index, the previous
        one of any but the first is no smaller than the first. */
    twostate lemma CutNext(x: Element)
      requires old(Ring()) && head.next in old(nodes) && CutOff(head.next) && x in nodes
      ensures x.next in nodes + {head} && x.next.prev == x
    {
      hide Array.Keyed;
      assert old(Gap(x));
    }

    twostate lemma CutPrev(x: Element)
      requires old(Ring()) && head.next in old(nodes) && CutOff(head.next) && x in nodes
      ensures x.prev in nodes + {head} && x.prev.next == x
    {
      if x != head.next {
        var p := old(x.prev);
        assert old(Gap(p));
        assert old(p.next) == x;
      }
    }

    twostate lemma CutHead()
      requires old(Ring()) && head.next in old(nodes) && CutOff(head.next)
      ensures head.next in nodes && head.next.prev == head && head.prev in nodes && head.prev.next == head
    {
      var last := old(head.prev);
      assert old(Gap(last));
    }

    twostate lemma CutLinked(first: Element)
      requires old(Ring()) && CutOff(first)
      ensures Linked()
    {
      hide Array.Gap, Array.Keyed;
      CutHead();
      forall x | x in nodes
        ensures x.next in nodes + {head} && x.next.prev == x && x.prev in nodes + {head} && x.prev.next == x
      {
        CutNext(x);
        CutPrev(x);
      }
    }

    twostate lemma CutGaps(first: Element)
      requires old(Ring()) && CutOff(first)
      ensures forall x {:trigger Gap(x)} :: x in nodes + {head} ==> Gap(x)
    {
      forall x | x in nodes + {head}
        ensures Gap(x)
      {
        assert old(Gap(x));
      }
    }

    method CutFront(ae: Element)
      requires Ring() && ae in nodes
      modifies ae.prev`next, head`next, ae`prev, this`nodes, this`at, this`contents
      ensures Ring() && head.next == ae && head.prev == old(head.prev) && nodes <= old(nodes)
      ensures contents == From(old(contents), ae.ind)
    {
      hide Array.Gap, Array.Linked, Array.Keyed;
      Neighbours(ae);
      HeadLinks();
      ghost var c := ae.ind;
      ae.prev.next := null;
      head.next := ae;
      ae.prev := head;
      nodes := set x | x in nodes && x.ind >= c;
      at := From(at, c);
      contents := From(contents, c);
      assert CutOff(ae);
      CutKeyed(ae);
      CutLinked(ae);
      CutGaps(ae);
    }

    /** In the ring as it was: what comes up to ae comes before the next one. */
    twostate lemma NextInOrder(ae: Element)
      requires old(Ring()) && ae in old(nodes)
      ensures old(ae.next) in old(nodes) + {old(head)} && old(ae.ind) <= old(head.prev.ind)
      ensures forall x :: x in old(nodes) ==>
        (old(ae.next) == old(head) || old(x.ind) < old(ae.next.ind) <==> old(x.ind) <= old(ae.ind))
      ensures forall x :: x in old(nodes) && x != ae ==> old(x.ind) != old(ae.ind)
      ensures old(ae.next) != old(head) ==> old(ae.ind) < old(ae.next.ind)
    {
      var last := old(head.prev);
      assert old(Gap(ae)) && old(Gap(last));
    }

    lemma FirstInOrder()
      requires Ring()
      ensures head !in nodes && head.next in nodes + {head} && (head.next == head ==> nodes == {})
      ensures head.next != head ==> forall x :: x in nodes ==> x.ind >= head.next.ind
    {
      assert Gap(head);
      assert head.next == head ==> forall x :: x !in nodes;
    }

    /** The loop that renumbers: one walk round the ring. */
    method MoveAll(d: int)
      requires Ring()
      modifies nodes`ind
      ensures forall x :: x in nodes ==> x.ind == old(x.ind) + d
    {
      hide Array.Keyed, Array.Linked, Array.Gap, Array.Ring;
      FirstInOrder();
      HeadLinks();
      var ae := head.next;
      while ae != head
        invariant ae in nodes + {head}
        invariant forall x :: x in nodes ==> x.ind == old(x.ind) + if ae == head || old(x.ind) < old(ae.ind) then d else 0
        decreases if ae == head then 0 else 1 + old(head.prev.ind) - old(ae.ind), ae != head
      {
        NextInOrder(ae);
        ae.ind := ae.ind + d;
        ae := ae.next;
        if ae != head {
          NextInOrder(ae);
        }
      }
    }

    method Renumber(d: int)
      requires Ring() && forall i :: i in contents ==> i + d >= 0
      modifies nodes`ind, this`at, this`contents
      ensures Ring() && contents == Slide(old(contents), d)
    {
      hide Array.Keyed, Array.Linked, Array.Gap, Slide;
      HeadLinks();
      MoveAll(d);
      at := Slide(at, d);
      contents := Slide(contents, d);
      MovedKeyed(d);
      MovedLinked(d);
      MovedGaps(d);
    }

    /** Every index has been moved by d, and nothing else. */
    twostate predicate Moved(d: int)
      reads this, head, nodes
    {
      && head == old(head) && nodes == old(nodes) && contents == Slide(old(contents), d)
      && at == Slide(old(at), d) && (forall i :: i in old(contents) ==> i + d >= 0)
      && head.ind == old(head.ind) && head.next == old(head.next) && head.prev == old(head.prev)
      && forall x :: x in nodes ==> x.ind == old(x.ind) + d && x.value == old(x.value) && x.next == old(x.next) && x.prev == old(x.prev)
    }

    twostate lemma MovedKeyed(d: int)
      requires old(Ring()) && Moved(d)
      ensures Keyed()
    {
      hide Array.Linked, Array.Gap, Slide;
      forall x | x in nodes
        ensures x.ind >= 0 && x.ind in at && at[x.ind] == x
      {
        SlideAt(old(at), d, x.ind);
      }
      forall i | i in at
        ensures i in contents && at[i] in nodes && at[i].ind == i && at[i].value == contents[i]
      {
        SlideAt(old(at), d, i);
        SlideAt(old(contents), d, i);
      }
      forall i | i in contents
        ensures i in at
      {
        SlideAt(old(at), d, i);
        SlideAt(old(contents), d, i);
      }
      assert at.Keys == contents.Keys;
    }

    twostate lemma MovedLinked(d: int)
      requires old(Ring()) && Moved(d)
      ensures Linked()
    {
    }

    twostate lemma MovedGaps(d: int)
      requires old(Ring()) && Moved(d)
      ensures forall x {:trigger Gap(x)} :: x in nodes + {head} ==> Gap(x)
    {
      hide Slide;
      forall x | x in nodes + {head}
        ensures Gap(x)
      {
        assert old(Gap(x));
        var y := x.next;
        assert y == old(x.next) && y in nodes + {head};
        forall i | i in at
          ensures if y == head then i <= x.ind else i <= x.ind || i >= y.ind
        {
          SlideAt(old(at), d, i);
          assert i - d in old(at) && i - d >= 0;
        }
      }
    }

    /** array_shift, the elements shifted out being disposed of. */
    method Shift(n: int)
      requires Valid()
      modifies this, head, nodes
      ensures Valid() && head == old(head) && nodes <= old(nodes)
      ensures n <= 0 ==> contents == old(contents)
      ensures n > 0 ==> ShiftsTo(old(contents), n, contents)
    {
      hide Array.Keyed, Array.Linked, Array.Gap, Array.Ring;
      if numElements == 0 || n <= 0 {
        return;
      }
      lastref := null;
      var ae := SkipFront(n);
      if ae == head {
        Flush();
        return;
      }
      ShiftAt(ae, n);
    }

    /** The element with n others before it; the head when there are no more than n. */
    method SkipFront(n: nat) returns (ae: Element)
      requires Ring()
      ensures ae in nodes + {head}
      ensures if ae == head then |contents| <= n else |Below(contents, ae.ind)| == n
    {
      ae := head.next;
      var i := 0;
      FirstRank();
      while ae != head && i < n
        invariant ae in nodes + {head} && i <= n
        invariant if ae == head then |contents| == i else |Below(contents, ae.ind)| == i
      {
        RankNext(ae);
        ae := ae.next;
        i := i + 1;
      }
    }

    lemma FirstRank()
      requires Ring()
      ensures if head.next == head then |contents| == 0 else |Below(contents, head.next.ind)| == 0
    {
      assert Gap(head);
      if head.next == head {
        assert forall i :: i !in at;
        assert (forall k :: k !in contents.Keys) ==> contents.Keys == {};
      } else {
        var s := Below(contents, head.next.ind);
        assert forall i :: i in at ==> i >= head.next.ind;
        assert (forall k :: k !in s) ==> s == {};
      }
    }

    lemma RankNext(ae: Element)
      requires Ring() && ae in nodes
      ensures |if ae.next == head then contents.Keys else Below(contents, ae.next.ind)| == |Below(contents, ae.ind)| + 1
    {
      assert Gap(ae);
      var s := Below(contents, ae.ind);
      if ae.next == head {
        assert contents.Keys == s + {ae.ind};
      } else {
        assert Below(contents, ae.next.ind) == s + {ae.ind};
      }
    }

    method ShiftAt(ae: Element, n: nat)
      requires Ring() && ae in nodes && |Below(contents, ae.ind)| == n && numElements == |contents| && lastref == null
      modifies this, head, nodes
      ensures Valid() && head == old(head) && nodes <= old(nodes) && ShiftsTo(old(contents), n, contents)
    {
      hide Array.Keyed, Array.Linked, Array.Gap, Array.Ring, Slide, Below;
      ghost var c := ae.ind;
      CutFits(ae, n);
      Neighbours(ae);
      CutFront(ae);
      Renumber(0 - n);
      HeadLinks();
      numElements := numElements - n;
      maxIndex := head.prev.ind;
      assert CutsTo(old(contents), n, contents, c);
    }

    /** The indices that stay are at least n, and there are that many fewer of them. */
    lemma CutFits(ae: Element, n: nat)
      requires Ring() && ae in nodes && |Below(contents, ae.ind)| == n
      ensures ae.ind in contents && |contents| > n
      ensures forall i :: i in From(contents, ae.ind) ==> i - n >= 0
      ensures |Slide(From(contents, ae.ind), 0 - n)| == |contents| - n
    {
      assert ae.ind in contents && NonNegative(contents);
      IndexAtLeastRank(contents, ae.ind, n);
      SizeAfterCut(contents, ae.ind, n);
    }

    /** array_rshift: move every index up by n and, when there is a string, put it at 0. The
        new element is linked in once the others have moved. */
    method RShift(n: int, s: Option<string>) returns (r: int)
      requires Valid()
      modifies this, head, nodes
      ensures Valid() && head == old(head) && r == |contents|
      ensures forall x :: x in nodes ==> x in old(nodes) || fresh(x)
      ensures contents == if n <= 0 then old(contents) else if s.None? then Slide(old(contents), n)
                          else Slide(old(contents), n)[0 := s.value]
    {
      hide Array.Keyed, Array.Linked, Array.Gap, Array.Ring, Slide;
      if n <= 0 {
        return numElements;
      }
      SlideSize(contents, n);
      MinAfterSlide(n);
      if numElements == 0 && s.None? {
        return 0;
      }
      lastref := null;
      Renumber(n);
      HeadLinks();
      if s.Some? {
        PushFront(s.value);
      }
      HeadLinks();
      maxIndex := head.prev.ind;
      return numElements;
    }

    lemma MinAfterSlide(n: nat)
      requires Ring() && n > 0
      ensures forall i :: i in contents ==> i + n >= 0
      ensures 0 !in Slide(contents, n) && (contents == map[] ==> Slide(contents, n) == map[])
    {
      SlideAt(contents, n, 0);
    }

    /** A new first element with index 0. */
    method PushFront(v: string)
      requires Ring() && 0 !in contents && numElements == |contents|
      modifies this`nodes, this`at, this`contents, this`numElements, head, nodes
      ensures Ring() && head == old(head) && contents == old(contents)[0 := v] && numElements == |contents|
      ensures forall x :: x in nodes ==> x in old(nodes) || fresh(x)
    {
      hide Array.Keyed, Array.Gap, Array.Linked, Array.Ring;
      FirstAboveZero();
      var elem := new Element(0, v);
      AddBefore(head.next, elem);
      numElements := numElements + 1;
    }

    lemma FirstAboveZero()
      requires Ring() && 0 !in contents
      ensures head !in nodes && head.ind == -1 && head.next in nodes + {head} && head.next.prev == head
      ensures head.next == head || head.next.ind > 0
    {
      assert Gap(head);
    }

    method Push(v: string)
      requires Valid()
      modifies this, head, nodes
      ensures Valid() && head == old(head) && contents == Pushed(old(contents), v)
      ensures forall x :: x in nodes ==> x in old(nodes) || fresh(x)
    {
      var _ := RShift(1, Some(v));
    }

    /** After a push and a pop the array holds what it held, whatever it was. */
    method PushAndPop(v: string)
      requires Valid()
      modifies this, head, nodes
      ensures Valid() && contents == old(contents)
    {
      assert NonNegative(contents);
      hide Array.Valid;
      Push(v);
      Shift(1);
      PopUndoesPush(old(contents), v, contents);
    }

    /** What the walk of array_copy needs to know at each element, of the ring as it was. */
    twostate lemma WalkStep(ae: Element)
      requires old(Valid()) && ae in old(nodes)
      ensures old(ae.next) in old(nodes) + {old(head)} && old(ae.next.prev) == ae && 0 <= old(ae.ind) <= old(maxIndex)
      ensures old(ae.prev) != null && old(ae.prev.ind) < old(ae.ind)
      ensures Upto(old(contents), old(ae.ind)) == Upto(old(contents), old(ae.prev.ind))[old(ae.ind) := old(ae.value)]
    {
      var last, p := old(head.prev), old(ae.prev);
      assert old(Gap(ae)) && old(Gap(p)) && old(Gap(last));
      UptoNext(old(contents), old(p.ind), old(ae.ind));
    }

    lemma WalkEnds()
      requires Valid()
      ensures head.next in nodes + {head} && head.next.prev == head && head.prev in nodes + {head} && head.ind == -1
      ensures Upto(contents, -1) == map[] && Upto(contents, head.prev.ind) == contents && maxIndex == head.prev.ind
    {
      assert Gap(head.prev);
      assert forall i :: i in contents ==> i in at;
      UptoNone(contents, -1);
      UptoAll(contents, head.prev.ind);
    }

    /** Link a copy of an element in at the end, and point the roving pointer there if asked. */
    method Append(ind: int, value: string, mark: bool)
      requires Ring() && head.prev != null && ind >= 0 && head.prev.ind < ind && (lastref == null || lastref in nodes)
      modifies head, nodes, this`nodes, this`at, this`contents, this`lastref
      ensures Ring() && head.prev != null && head.prev.ind == ind && (lastref == null || lastref in nodes)
      ensures contents == old(contents)[ind := value]
      ensures forall x :: x in nodes ==> x in old(nodes) || fresh(x)
    {
      hide Array.Keyed, Array.Linked, Array.Gap, Array.Ring;
      HeadLinks();
      var elem := new Element(ind, value);
      AddBefore(head, elem);
      if mark {
        lastref := elem;
      }
    }

    lemma Counted()
      requires Valid()
      ensures numElements == |contents| && (lastref == null || lastref in nodes)
    {
    }

    lemma IsValid()
      requires Ring() && numElements == |contents| && (lastref == null || lastref in nodes)
      requires head.prev != null && maxIndex == head.prev.ind
      ensures Valid()
    {
    }

    method Copy() returns (a1: Array)
      requires Valid()
      ensures fresh(a1) && fresh(a1.head) && fresh(a1.nodes) && a1.Valid() && a1.contents == contents
    {
      hide Array.Keyed, Array.Linked, Array.Gap, Array.Ring, Array.Valid, Upto;
      Counted();
      a1 := new Array();
      a1.HeadLinks();
      a1.numElements := numElements;
      a1.maxIndex := maxIndex;
      WalkEnds();
      var start := if lastref != null then lastref else head.next;
      var ae := head.next;
      while ae != head
        invariant ae in nodes + {head} && a1.Ring() && fresh(a1.head) && fresh(a1.nodes)
        invariant a1.lastref == null || a1.lastref in a1.nodes
        invariant old(ae.prev) != null && a1.head.prev != null && a1.head.prev.ind == old(ae.prev.ind)
        invariant a1.contents == Upto(contents, old(ae.prev.ind))
        invariant a1.numElements == numElements && a1.maxIndex == maxIndex
        decreases maxIndex - old(ae.prev.ind), ae != head
      {
        WalkStep(ae);
        a1.Append(ae.ind, ae.value, ae == start);
        ae := ae.next;
      }
      a1.IsValid();
    }
  }
}
