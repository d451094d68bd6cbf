/**
 * GLDrawableHelper: the listener and runnable bookkeeping shared by GL drawables.
 * Listeners, runnables and animators are identified by number. The calls the
 * helper makes on listeners, on the drawable's viewport and on runnables are
 * recorded, in order, in `calls`; the drawable's size is a parameter.
 */
module GLDrawableHelper {
  import opened Wrappers
  import opened SeqUtil

  type Listener = nat
  type Runnable = nat
  type Animator = nat

  /** One call the helper makes: on a listener, on the drawable's GL, or on a runnable. */
  datatype Event =
    | InitCall(listener: Listener)
    | ViewportCall(x: int, y: int, width: int, height: int)
    | ReshapeCall(listener: Listener, x: int, y: int, width: int, height: int)
    | DisplayCall(listener: Listener)
    | DisposeCall(listener: Listener)
    | RunCall(runnable: Runnable)

  /** `s` with `x` inserted at position `i`. */
  function Insert(s: seq<Listener>, i: nat, x: Listener): (r: seq<Listener>)
    requires i <= |s|
    ensures |r| == |s| + 1 && r[i] == x
    ensures r[..i] == s[..i] && r[i + 1..] == s[i..]
    ensures multiset(r) == multiset(s) + multiset{x}
  {
    assert s == s[..i] + s[i..];
    s[..i] + [x] + s[i..]
  }

  /** `s` without the first occurrence of `x`; unchanged when `x` does not occur. */
  function RemoveFirst(s: seq<Listener>, x: Listener): seq<Listener>
  {
    if s == [] then []
    else if s[0] == x then s[1..]
    else [s[0]] + RemoveFirst(s[1..], x)
  }

  /** Removal takes away exactly one occurrence, if there is one. */
  lemma {:induction false} RemoveFirstCount(s: seq<Listener>, x: Listener)
    ensures multiset(RemoveFirst(s, x)) == multiset(s) - multiset{x}
  {
    if s != [] {
      assert s == [s[0]] + s[1..];
      if s[0] != x {
        RemoveFirstCount(s[1..], x);
      }
    }
  }

  /** Removing an absent listener changes nothing. */
  lemma {:induction false} RemoveFirstAbsent(s: seq<Listener>, x: Listener)
    requires x !in s
    ensures RemoveFirst(s, x) == s
  {
    if s != [] {
      assert x !in s[1..];
      RemoveFirstAbsent(s[1..], x);
      assert s == [s[0]] + s[1..];
    }
  }

  /** Only the first occurrence goes; everything before and after it keeps its order. */
  lemma {:induction false} RemoveFirstShape(s: seq<Listener>, x: Listener)
    requires x in s
    ensures RemoveFirst(s, x) == s[..FirstIndex(s, x)] + s[FirstIndex(s, x) + 1..]
  {
    if s[0] == x {
      assert FirstIndex(s, x) == 0;
      assert s[..0] + s[1..] == s[1..];
    } else {
      var t := s[1..];
      var h := s[0];
      var j :| 0 <= j < |s| && s[j] == x;
      assert j > 0 && t[j - 1] == x;
      RemoveFirstShape(t, x);
      var i := FirstIndex(t, x);
      assert FirstIndex(s, x) == i + 1;
      calc {
        RemoveFirst(s, x);
        [h] + RemoveFirst(t, x);
        [h] + (t[..i] + t[i + 1..]);
        ([h] + t[..i]) + t[i + 1..];
        { assert [h] + t[..i] == s[..i + 1]; assert t[i + 1..] == s[i + 2..]; }
        s[..i + 1] + s[i + 2..];
      }
    }
  }

  lemma RemoveFirstElems(s: seq<Listener>, x: Listener)
    ensures Elems(s) - {x} <= Elems(RemoveFirst(s, x))
    ensures Elems(RemoveFirst(s, x)) <= Elems(s)
  {
    var r := RemoveFirst(s, x);
    RemoveFirstCount(s, x);
    forall y | y in Elems(s) - {x} ensures y in Elems(r) {
      assert y in multiset(s);
      assert y in multiset(r);
    }
    forall y | y in Elems(r) ensures y in Elems(s) {
      assert y in multiset(r);
      assert y in multiset(s);
    }
  }

  /** The calls of one pass of init over the listeners. */
  function InitEvents(ls: seq<Listener>): (r: seq<Event>)
    ensures |r| == |ls|
    ensures forall i :: 0 <= i < |ls| ==> r[i] == InitCall(ls[i])
  {
    if ls == [] then [] else InitEvents(ls[..|ls| - 1]) + [InitCall(ls[|ls| - 1])]
  }

  /** The calls of one pass of dispose over the listeners. */
  function DisposeEvents(ls: seq<Listener>): (r: seq<Event>)
    ensures |r| == |ls|
    ensures forall i :: 0 <= i < |ls| ==> r[i] == DisposeCall(ls[i])
  {
    if ls == [] then [] else DisposeEvents(ls[..|ls| - 1]) + [DisposeCall(ls[|ls| - 1])]
  }

  /** The calls of running the queued runnables. */
  function RunEvents(rs: seq<Runnable>): (r: seq<Event>)
    ensures |r| == |rs|
    ensures forall i :: 0 <= i < |rs| ==> r[i] == RunCall(rs[i])
  {
    if rs == [] then [] else RunEvents(rs[..|rs| - 1]) + [RunCall(rs[|rs| - 1])]
  }

  /**
   * The calls of a broadcast reshape: the viewport is set once, before the first
   * listener's reshape, and every listener gets the same rectangle in list order.
   */
  function ReshapeEvents(ls: seq<Listener>, x: int, y: int, w: int, h: int): (r: seq<Event>)
    ensures ls == [] ==> r == []
    ensures ls != [] ==>
      && |r| == |ls| + 1
      && r[0] == ViewportCall(x, y, w, h)
      && forall i :: 0 <= i < |ls| ==> r[i + 1] == ReshapeCall(ls[i], x, y, w, h)
  {
    if ls == [] then []
    else if |ls| == 1 then [ViewportCall(x, y, w, h), ReshapeCall(ls[0], x, y, w, h)]
    else ReshapeEvents(ls[..|ls| - 1], x, y, w, h) + [ReshapeCall(ls[|ls| - 1], x, y, w, h)]
  }

  /** The calls one listener gets in display, and the pending set afterwards. */
  function DisplayStep(l: Listener, pending: set<Listener>, w: int, h: int): (seq<Event>, set<Listener>)
  {
    if l in pending then ([InitCall(l), ViewportCall(0, 0, w, h), ReshapeCall(l, 0, 0, w, h), DisplayCall(l)], pending - {l})
    else ([DisplayCall(l)], pending)
  }

  /** The calls of display's pass over the listeners, and the pending set afterwards. */
  function DisplayPass(ls: seq<Listener>, pending: set<Listener>, w: int, h: int): (seq<Event>, set<Listener>)
  {
    if ls == [] then ([], pending)
    else
      var before := DisplayPass(ls[..|ls| - 1], pending, w, h);
      var step := DisplayStep(ls[|ls| - 1], before.1, w, h);
      (before.0 + step.0, step.1)
  }

  /** The listeners whose display is called, in order. */
  function Displayed(events: seq<Event>): seq<Listener>
  {
    if events == [] then []
    else
      var e := events[|events| - 1];
      Displayed(events[..|events| - 1]) + (if e.DisplayCall? then [e.listener] else [])
  }

  /** The listeners whose init is called, in order. */
  function Initialized(events: seq<Event>): seq<Listener>
  {
    if events == [] then []
    else
      var e := events[|events| - 1];
      Initialized(events[..|events| - 1]) + (if e.InitCall? then [e.listener] else [])
  }

  lemma {:induction false} DisplayedAppend(a: seq<Event>, b: seq<Event>)
    ensures Displayed(a + b) == Displayed(a) + Displayed(b)
  {
    if b == [] {
      assert a + b == a;
    } else {
      assert (a + b)[..|a + b| - 1] == a + b[..|b| - 1];
      assert (a + b)[|a + b| - 1] == b[|b| - 1];
      DisplayedAppend(a, b[..|b| - 1]);
    }
  }

  lemma {:induction false} InitializedAppend(a: seq<Event>, b: seq<Event>)
    ensures Initialized(a + b) == Initialized(a) + Initialized(b)
  {
    if b == [] {
      assert a + b == a;
    } else {
      assert (a + b)[..|a + b| - 1] == a + b[..|b| - 1];
      assert (a + b)[|a + b| - 1] == b[|b| - 1];
      InitializedAppend(a, b[..|b| - 1]);
    }
  }

  lemma DisplayStepCalls(l: Listener, pending: set<Listener>, w: int, h: int)
    ensures Displayed(DisplayStep(l, pending, w, h).0) == [l]
    ensures Initialized(DisplayStep(l, pending, w, h).0) == if l in pending then [l] else []
  {
    if l in pending {
      var s := DisplayStep(l, pending, w, h).0;
      var a := [InitCall(l)];
      var b := a + [ViewportCall(0, 0, w, h)];
      var c := b + [ReshapeCall(l, 0, 0, w, h)];
      assert a[..0] == [] && b[..1] == a && c[..2] == b && s[..3] == c;
      assert Displayed(a) == [] && Displayed(b) == [] && Displayed(c) == [];
      assert Initialized(a) == [l] && Initialized(b) == [l] && Initialized(c) == [l];
    } else {
      assert [DisplayCall(l)][..0] == [];
    }
  }

  /** After display's pass no listener of the list is pending any more. */
  lemma {:induction false} DisplayPassPending(ls: seq<Listener>, pending: set<Listener>, w: int, h: int)
    ensures DisplayPass(ls, pending, w, h).1 == pending - Elems(ls)
  {
    if ls != [] {
      var pre := ls[..|ls| - 1];
      DisplayPassPending(pre, pending, w, h);
      assert Elems(ls) == Elems(pre) + {ls[|ls| - 1]} by {
        assert ls == pre + [ls[|ls| - 1]];
      }
    }
  }

  /** Display visits the listeners in list order, each exactly once per occurrence. */
  lemma {:induction false} DisplayPassOrder(ls: seq<Listener>, pending: set<Listener>, w: int, h: int)
    ensures Displayed(DisplayPass(ls, pending, w, h).0) == ls
  {
    if ls != [] {
      var pre := ls[..|ls| - 1];
      var l := ls[|ls| - 1];
      var before := DisplayPass(pre, pending, w, h);
      var step := DisplayStep(l, before.1, w, h);
      DisplayPassOrder(pre, pending, w, h);
      DisplayedAppend(before.0, step.0);
      DisplayStepCalls(l, before.1, w, h);
      assert ls == pre + [l];
    }
  }

  /**
   * Display initializes exactly the listed listeners that were pending, each once,
   * even when a listener is listed several times.
   */
  lemma {:induction false} DisplayPassInits(ls: seq<Listener>, pending: set<Listener>, w: int, h: int)
    ensures NoDups(Initialized(DisplayPass(ls, pending, w, h).0))
    ensures Elems(Initialized(DisplayPass(ls, pending, w, h).0)) == Elems(ls) * pending
  {
    if ls != [] {
      var pre := ls[..|ls| - 1];
      var l := ls[|ls| - 1];
      var before := DisplayPass(pre, pending, w, h);
      var step := DisplayStep(l, before.1, w, h);
      DisplayPassInits(pre, pending, w, h);
      DisplayPassPending(pre, pending, w, h);
      InitializedAppend(before.0, step.0);
      assert Elems(ls) == Elems(pre) + {l} by {
        assert ls == pre + [l];
      }
      var inits := Initialized(before.0);
      DisplayStepCalls(l, before.1, w, h);
      if l in before.1 {
        NoDupsSnoc(inits, l);
      } else {
        assert inits + [] == inits;
      }
    }
  }

  lemma NoDupsSnoc(s: seq<Listener>, x: Listener)
    requires NoDups(s) && x !in Elems(s)
    ensures NoDups(s + [x]) && Elems(s + [x]) == Elems(s) + {x}
  {
    forall i, j | 0 <= i < j < |s + [x]| ensures (s + [x])[i] != (s + [x])[j] {
      assert (s + [x])[i] == s[i];
      if j == |s| {
        assert s[i] in Elems(s);
      }
    }
  }

  /** Every init call is followed by the viewport, the listener's reshape to the full size, and its display. */
  ghost predicate InitsThenReshapeThenDisplay(events: seq<Event>, w: int, h: int)
  {
    forall i :: 0 <= i < |events| && events[i].InitCall? ==>
      && i + 3 < |events|
      && events[i + 1] == ViewportCall(0, 0, w, h)
      && events[i + 2] == ReshapeCall(events[i].listener, 0, 0, w, h)
      && events[i + 3] == DisplayCall(events[i].listener)
  }

  lemma {:induction false} DisplayPassShape(ls: seq<Listener>, pending: set<Listener>, w: int, h: int)
    ensures InitsThenReshapeThenDisplay(DisplayPass(ls, pending, w, h).0, w, h)
  {
    if ls != [] {
      var pre := ls[..|ls| - 1];
      var before := DisplayPass(pre, pending, w, h);
      var step := DisplayStep(ls[|ls| - 1], before.1, w, h);
      DisplayPassShape(pre, pending, w, h);
      var a := before.0;
      var e := a + step.0;
      forall i | 0 <= i < |e| && e[i].InitCall?
        ensures i + 3 < |e| && e[i + 1] == ViewportCall(0, 0, w, h)
        ensures e[i + 2] == ReshapeCall(e[i].listener, 0, 0, w, h) && e[i + 3] == DisplayCall(e[i].listener)
      {
        if i < |a| {
          assert a[i].InitCall?;
        }
      }
    }
  }

  /** A listener of the init list has an init call among the events. */
  lemma {:induction false} InitializedHasInit(events: seq<Event>, l: Listener)
    requires l in Initialized(events)
    ensures InitCall(l) in events
  {
    var pre := events[..|events| - 1];
    var e := events[|events| - 1];
    assert events == pre + [e];
    if !(e.InitCall? && e.listener == l) {
      assert l in Initialized(pre);
      InitializedHasInit(pre, l);
    }
  }

  /** Every display of a listener that was pending comes after an init of that listener. */
  ghost predicate InitBeforeDisplay(events: seq<Event>, pending: set<Listener>)
  {
    forall i :: 0 <= i < |events| && events[i].DisplayCall? && events[i].listener in pending ==>
      InitCall(events[i].listener) in events[..i]
  }

  /**
   * A listener pending when display starts is initialized before its first display
   * call, even when it is listed several times.
   */
  lemma {:induction false} DisplayPassInitFirst(ls: seq<Listener>, pending: set<Listener>, w: int, h: int)
    ensures InitBeforeDisplay(DisplayPass(ls, pending, w, h).0, pending)
  {
    if ls != [] {
      var pre := ls[..|ls| - 1];
      var l := ls[|ls| - 1];
      var before := DisplayPass(pre, pending, w, h);
      var step := DisplayStep(l, before.1, w, h);
      DisplayPassInitFirst(pre, pending, w, h);
      var a := before.0;
      var e := a + step.0;
      forall i | 0 <= i < |e| && e[i].DisplayCall? && e[i].listener in pending
        ensures InitCall(e[i].listener) in e[..i]
      {
        if i < |a| {
          assert a[i] == e[i] && a[..i] == e[..i];
        } else if l in before.1 {
          assert e[|a|] == InitCall(l) && e[i].listener == l && |a| < i;
          assert e[..i][|a|] == InitCall(l);
        } else {
          assert i == |a| && e[i] == DisplayCall(l) && e[..i] == a;
          DisplayPassPending(pre, pending, w, h);
          DisplayPassInits(pre, pending, w, h);
          assert l in Elems(pre);
          assert l in Elems(Initialized(a));
          InitializedHasInit(a, l);
        }
      }
    }
  }

  /**
   * The as-written insertion at an index: the listener is marked pending before the
   * list insertion, which throws for an index beyond the end and so leaves the list
   * unchanged. Returns the list, the pending set, and whether it succeeded.
   */
  function AddAtAsWritten(listeners: seq<Listener>, pending: set<Listener>, index: int, l: Listener): (seq<Listener>, set<Listener>, bool)
  {
    var at := if index < 0 then |listeners| else index;
    if at <= |listeners| then (Insert(listeners, at, l), pending + {l}, true)
    else (listeners, pending + {l}, false)
  }

  /** Input that shows it: inserting at index 1 into an empty list leaves a pending listener that is not listed. */
  lemma AddAtAsWrittenBreaksPending()
    ensures var (ls, p, ok) := AddAtAsWritten([], {}, 1, 7);
      !ok && !(p <= Elems(ls))
  {
    var (ls, p, ok) := AddAtAsWritten([], {}, 1, 7);
    assert 7 in p;
    assert Elems(ls) == {};
  }

  class GLDrawableHelper {
    var listeners: seq<Listener>
    var listenersToBeInit: set<Listener>
    var autoSwapBufferMode: bool
    var glRunnables: seq<Runnable>
    var animatorCtrl: Option<Animator>
    /** The calls made so far, in order. */
    var calls: seq<Event>

    /** Only listed listeners are pending initialization. */
    ghost predicate Valid()
      reads this
    {
      listenersToBeInit <= Elems(listeners)
    }

    constructor ()
      ensures Valid()
      ensures listeners == [] && listenersToBeInit == {} && glRunnables == []
      ensures autoSwapBufferMode && animatorCtrl.None? && calls == []
    {
      listeners := [];
      listenersToBeInit := {};
      autoSwapBufferMode := true;
      glRunnables := [];
      animatorCtrl := None;
      calls := [];
    }

    method Reset()
      modifies this
      ensures Valid()
      ensures listeners == [] && listenersToBeInit == {} && glRunnables == []
      ensures autoSwapBufferMode && animatorCtrl.None? && calls == old(calls)
    {
      listeners := [];
      listenersToBeInit := {};
      autoSwapBufferMode := true;
      glRunnables := [];
      animatorCtrl := None;
    }

    /** addGLEventListener(listener): appends, and marks the listener for initialization. */
    method AddGLEventListener(l: Listener)
      requires Valid()
      modifies this`listeners, this`listenersToBeInit
      ensures Valid()
      ensures listeners == old(listeners) + [l]
      ensures listenersToBeInit == old(listenersToBeInit) + {l}
    {
      var ok := AddGLEventListenerAt(-1, l);
    }

    /**
     * addGLEventListener(index, listener): a negative index appends; otherwise the
     * listener is inserted at that index; either way it is marked for
     * initialization. An index beyond the end fails and, unlike the as-written
     * code, changes nothing.
     */
    method AddGLEventListenerAt(index: int, l: Listener) returns (ok: bool)
      requires Valid()
      modifies this`listeners, this`listenersToBeInit
      ensures Valid()
      ensures ok <==> index <= |old(listeners)|
      ensures ok && index < 0 ==> listeners == old(listeners) + [l]
      ensures ok && index >= 0 ==> listeners == Insert(old(listeners), index, l)
      ensures ok ==> listenersToBeInit == old(listenersToBeInit) + {l}
      ensures !ok ==> listeners == old(listeners) && listenersToBeInit == old(listenersToBeInit)
    {
      var at := index;
      if at < 0 {
        at := |listeners|;
      }
      if at > |listeners| {
        return false;
      }
      listenersToBeInit := listenersToBeInit + {l};
      listeners := Insert(listeners, at, l);
      assert Elems(listeners) == Elems(old(listeners)) + {l} by {
        assert multiset(listeners) == multiset(old(listeners)) + multiset{l};
        forall y ensures y in listeners <==> y in old(listeners) || y == l {
          assert y in listeners <==> y in multiset(listeners);
          assert y in old(listeners) <==> y in multiset(old(listeners));
        }
      }
      if index < 0 {
        assert listeners == old(listeners) + [l];
      }
      ok := true;
    }

    /** removeGLEventListener: removes the first occurrence and the pending mark. */
    method RemoveGLEventListener(l: Listener)
      requires Valid()
      modifies this`listeners, this`listenersToBeInit
      ensures Valid()
      ensures listeners == RemoveFirst(old(listeners), l)
      ensures listenersToBeInit == old(listenersToBeInit) - {l}
    {
      RemoveFirstElems(listeners, l);
      listeners := RemoveFirst(listeners, l);
      listenersToBeInit := listenersToBeInit - {l};
    }

    /** dispose: every listed listener's dispose, in order. */
    method Dispose()
      modifies this`calls
      ensures calls == old(calls) + DisposeEvents(listeners)
    {
      var i := 0;
      while i < |listeners|
        invariant 0 <= i <= |listeners|
        invariant calls == old(calls) + DisposeEvents(listeners[..i])
      {
        assert listeners[..i + 1][..i] == listeners[..i];
        calls := calls + [DisposeCall(listeners[i])];
        i := i + 1;
      }
      assert listeners[..i] == listeners;
    }

    /**
     * The per-listener init: when the listener was pending, its init and, if asked,
     * the viewport and its reshape to the drawable's full size; no longer pending.
     */
    method InitListener(l: Listener, sendReshape: bool, width: int, height: int) returns (wasPending: bool)
      modifies this`listenersToBeInit, this`calls
      ensures wasPending <==> l in old(listenersToBeInit)
      ensures listenersToBeInit == old(listenersToBeInit) - {l}
      ensures calls == old(calls) +
        if !wasPending then []
        else [InitCall(l)] + (if sendReshape then [ViewportCall(0, 0, width, height), ReshapeCall(l, 0, 0, width, height)] else [])
    {
      wasPending := l in listenersToBeInit;
      listenersToBeInit := listenersToBeInit - {l};
      if wasPending {
        calls := calls + [InitCall(l)];
        if sendReshape {
          ReshapeListener(l, 0, 0, width, height, true);
        }
      }
    }

    /** init(drawable): every listed listener is initialized again, in order; none stays pending. */
    method Init()
      requires Valid()
      modifies this`listenersToBeInit, this`calls
      ensures Valid()
      ensures listenersToBeInit == {}
      ensures calls == old(calls) + InitEvents(listeners)
    {
      var i := 0;
      while i < |listeners|
        invariant 0 <= i <= |listeners|
        invariant listenersToBeInit == old(listenersToBeInit) - Elems(listeners[..i])
        invariant calls == old(calls) + InitEvents(listeners[..i])
      {
        var listener := listeners[i];
        assert listeners[..i + 1] == listeners[..i] + [listener];
        listenersToBeInit := listenersToBeInit + {listener};
        var initialized := InitListener(listener, false, 0, 0);
        if !initialized {
          assert false;
        }
        i := i + 1;
      }
      assert listeners[..i] == listeners;
    }

    /**
     * display(drawable): in list order, a pending listener is initialized and
     * reshaped to the full size, then every listener displays; then the queued
     * runnables run.
     */
    method Display(width: int, height: int)
      requires Valid()
      modifies this`listenersToBeInit, this`calls, this`glRunnables
      ensures Valid()
      ensures listenersToBeInit == {}
      ensures glRunnables == []
      ensures calls == old(calls) + DisplayPass(listeners, old(listenersToBeInit), width, height).0 + RunEvents(old(glRunnables))
    {
      var i := 0;
      while i < |listeners|
        invariant 0 <= i <= |listeners|
        invariant glRunnables == old(glRunnables)
        invariant listenersToBeInit == DisplayPass(listeners[..i], old(listenersToBeInit), width, height).1
        invariant calls == old(calls) + DisplayPass(listeners[..i], old(listenersToBeInit), width, height).0
      {
        var listener := listeners[i];
        assert listeners[..i + 1][..i] == listeners[..i];
        assert listeners[..i + 1][i] == listener;
        var initialized := InitListener(listener, true, width, height);
        calls := calls + [DisplayCall(listener)];
        i := i + 1;
      }
      assert listeners[..i] == listeners;
      DisplayPassPending(listeners, old(listenersToBeInit), width, height);
      ExecGLRunnables();
    }

    /** The per-listener reshape: the viewport when asked, then the listener's reshape. */
    method ReshapeListener(l: Listener, x: int, y: int, width: int, height: int, setViewport: bool)
      modifies this`calls
      ensures calls == old(calls) + (if setViewport then [ViewportCall(x, y, width, height)] else []) + [ReshapeCall(l, x, y, width, height)]
    {
      if setViewport {
        calls := calls + [ViewportCall(x, y, width, height)];
      }
      calls := calls + [ReshapeCall(l, x, y, width, height)];
    }

    /** reshape(drawable, ...): every listener in order, the viewport set only for the first. */
    method Reshape(x: int, y: int, width: int, height: int)
      modifies this`calls
      ensures calls == old(calls) + ReshapeEvents(listeners, x, y, width, height)
    {
      var i := 0;
      while i < |listeners|
        invariant 0 <= i <= |listeners|
        invariant calls == old(calls) + ReshapeEvents(listeners[..i], x, y, width, height)
      {
        assert listeners[..i + 1][..i] == listeners[..i];
        ReshapeListener(listeners[i], x, y, width, height, i == 0);
        i := i + 1;
      }
      assert listeners[..i] == listeners;
    }

    /** execGLRunnables: the queue is taken over and emptied, then its runnables run in FIFO order. */
    method ExecGLRunnables()
      modifies this`glRunnables, this`calls
      ensures glRunnables == []
      ensures calls == old(calls) + RunEvents(old(glRunnables))
    {
      var taken := glRunnables;
      glRunnables := [];
      var i := 0;
      while i < |taken|
        invariant 0 <= i <= |taken|
        invariant glRunnables == []
        invariant calls == old(calls) + RunEvents(taken[..i])
      {
        assert taken[..i + 1][..i] == taken[..i];
        calls := calls + [RunCall(taken[i])];
        i := i + 1;
      }
      assert taken[..i] == taken;
    }

    /** The queueing step of invoke: the runnable joins the end of the queue. */
    method EnqueueGLRunnable(r: Runnable)
      modifies this`glRunnables
      ensures glRunnables == old(glRunnables) + [r]
    {
      glRunnables := glRunnables + [r];
    }

    /**
     * setAnimator: fails when a different animator is to be registered while one
     * already is; otherwise the slot takes the argument, None unregistering.
     */
    method SetAnimator(animator: Option<Animator>) returns (ok: bool)
      modifies this`animatorCtrl
      ensures ok <==> !(old(animatorCtrl) != animator && animator.Some? && old(animatorCtrl).Some?)
      ensures ok ==> GetAnimator() == animator
      ensures !ok ==> GetAnimator() == old(GetAnimator())
    {
      if animatorCtrl != animator && animator.Some? && animatorCtrl.Some? {
        return false;
      }
      animatorCtrl := animator;
      ok := true;
    }

    /** getAnimator: the registered animator, None when there is none. */
    function GetAnimator(): (r: Option<Animator>)
      reads this
      ensures r == animatorCtrl
    {
      animatorCtrl
    }

    method SetAutoSwapBufferMode(onOrOff: bool)
      modifies this`autoSwapBufferMode
      ensures GetAutoSwapBufferMode() == onOrOff
    {
      autoSwapBufferMode := onOrOff;
    }

    /** getAutoSwapBufferMode: the mode last set, on for a new or reset helper. */
    function GetAutoSwapBufferMode(): (r: bool)
      reads this
      ensures r == autoSwapBufferMode
    {
      autoSwapBufferMode
    }
  }
}
