/** The shadow stacks against the calls a program really has in progress. */
module ShadowRun {
  import opened ShadowStack

  /** The observer, the calls in progress on each stack, the frame in which each call returned, and the clock. */
  datatype World = World(shadow: Shadow, live: map<nat, seq<Frame>>, returned: map<nat, nat>, ordinal: nat, next: nat)

  /** A probed call, a return from the innermost call of a stack, or the end of a frame. */
  datatype Event = Call(esp: nat, fid: nat) | Return(tag: nat) | Boundary(esp: nat)

  /** Calls in progress lie above the pointer of their own stack. */
  ghost predicate Above(live: seq<Frame>, tag: nat, height: nat) {
    forall i :: 0 <= i < |live| ==> Height(tag, live[i].level) > height
  }

  /** No interrupt handler is in progress on another stack. */
  ghost predicate Quiet(w: World, esp: nat) {
    forall tag :: tag in w.live && tag != Tag(esp) ==> w.live[tag] == []
  }

  /** What the program may do next; a pointer lies below every return address on its stack. */
  ghost predicate Possible(w: World, e: Event) {
    match e
    case Call(esp, fid) => esp < WORD && Above(StackOf(w.live, Tag(esp)), Tag(esp), esp % WINDOW + 4)
    case Return(tag) => StackOf(w.live, tag) != []
    case Boundary(esp) => esp < WORD && Above(StackOf(w.live, Tag(esp)), Tag(esp), esp % WINDOW) && Quiet(w, esp)
  }

  function Step(w: World, e: Event): World {
    match e
    case Call(esp, fid) =>
      var tag := Tag(esp);
      World(Fire(w.shadow, esp, fid, w.next, w.ordinal),
            w.live[tag := StackOf(w.live, tag) + [Frame(fid, (esp + 4) % WORD, w.next)]],
            w.returned, w.ordinal, w.next + 1)
    case Return(tag) =>
      var stack := StackOf(w.live, tag);
      if stack == [] then w
      else
        var top := stack[|stack| - 1];
        w.(live := w.live[tag := stack[..|stack| - 1]], returned := w.returned[top.id := w.ordinal])
    case Boundary(esp) => w.(shadow := Finish(w.shadow, esp, w.ordinal + 1), ordinal := w.ordinal + 1)
  }

  /** Calls in progress are still on the shadow stack. */
  ghost predicate Tracked(w: World) {
    forall tag, f :: tag in w.live && f in w.live[tag] ==> f in StackOf(w.shadow.stacks, tag)
  }

  /** In progress, or returned by now. */
  ghost predicate HasFate(w: World, tag: nat, f: Frame) {
    f.id < w.next && (f in StackOf(w.live, tag) || (f.id in w.returned && w.returned[f.id] <= w.ordinal))
  }

  /** What is on a shadow stack is in progress or has returned. */
  ghost predicate Accounted(w: World) {
    forall tag, f :: tag in w.shadow.stacks && f in w.shadow.stacks[tag] ==> HasFate(w, tag, f)
  }

  /** A call's exit is recorded at a boundary after the frame in which it returned. */
  ghost predicate Covered(w: World) {
    forall e :: e in w.shadow.exits ==> e.id in w.returned && w.returned[e.id] < e.ordinal
  }

  /** Calls in progress have levels of their own stack. */
  ghost predicate LiveHeights(w: World) {
    forall tag, f :: tag in w.live && f in w.live[tag] ==> Height(tag, f.level) < WINDOW + 4
  }

  /** Calls in progress have been numbered and have not returned. */
  ghost predicate LiveFresh(w: World) {
    (forall tag, f :: tag in w.live && f in w.live[tag] ==> f.id < w.next && f.id !in w.returned)
    && forall id :: id in w.returned ==> id < w.next
  }

  /** No two calls in progress share a number. */
  ghost predicate Distinct(live: map<nat, seq<Frame>>) {
    forall s, t, i, j ::
      s in live && t in live && 0 <= i < |live[s]| && 0 <= j < |live[t]| && live[s][i].id == live[t][j].id ==>
        s == t && i == j
  }

  ghost predicate LiveShape(w: World) {
    LiveHeights(w) && LiveFresh(w) && Distinct(w.live)
  }

  ghost predicate Invariant(w: World) {
    WellFormed(w.shadow) && Tracked(w) && Accounted(w) && Covered(w) && LiveShape(w)
  }

  /** Unwinding to below every call in progress keeps them all. */
  lemma KeepsLive(tag: nat, stack: seq<Frame>, live: seq<Frame>, level: nat, height: nat, f: Frame)
    requires Decreasing(tag, stack) && height == Height(tag, level) < WINDOW + 4
    requires Above(live, tag, height) && f in live && f in stack
    ensures f in Kept(stack, level) && f !in Popped(stack, level)
  {
    var k :| 0 <= k < |live| && live[k] == f;
    hide Height, Kept;
    forall i | 0 <= i < |stack| && stack[i] == f
      ensures i < |Kept(stack, level)|
    {
      KeptAreAbove(tag, stack, level, i);
    }
  }

  /** What is popped was on the stack and below the pointer. */
  lemma PoppedAreReturned(tag: nat, stack: seq<Frame>, live: seq<Frame>, level: nat, height: nat, f: Frame)
    requires Decreasing(tag, stack) && height == Height(tag, level) < WINDOW + 4
    requires Above(live, tag, height) && f in Popped(stack, level)
    ensures f in stack && f !in live
  {
    if f in live && f in stack {
      KeepsLive(tag, stack, live, level, height, f);
    }
  }

  // ---- a call ----------------------------------------------------------------------------

  lemma CallFrame(w: World, esp: nat, fid: nat)
    requires Invariant(w) && Possible(w, Call(esp, fid))
    ensures var (tag, level) := (Tag(esp), (esp + 4) % WORD);
            tag < WINDOW && Height(tag, level) == esp % WINDOW + 4 && Decreasing(tag, StackOf(w.shadow.stacks, tag))
  {
    HeightOf(esp);
    EmptyDecreasing(Tag(esp));
    hide Height, Decreasing, Tag;
  }

  lemma CallTracked(w: World, esp: nat, fid: nat)
    requires Invariant(w) && Possible(w, Call(esp, fid))
    ensures Tracked(Step(w, Call(esp, fid)))
  {
    var (tag, level) := (Tag(esp), (esp + 4) % WORD);
    CallFrame(w, esp, fid);
    hide Tag, Height, Kept, ExitsOf, Decreasing;
    var w' := Step(w, Call(esp, fid));
    forall t, f | t in w'.live && f in w'.live[t]
      ensures f in StackOf(w'.shadow.stacks, t)
    {
      if t == tag && f in StackOf(w.live, tag) {
        KeepsLive(tag, StackOf(w.shadow.stacks, tag), StackOf(w.live, tag), level, esp % WINDOW + 4, f);
      }
    }
  }

  lemma PushedFrom(stack: seq<Frame>, level: nat, g: Frame, f: Frame)
    requires f in Kept(stack, level) + [g]
    ensures f == g || f in stack
  {
    hide Below;
  }

  lemma CallAccounted(w: World, esp: nat, fid: nat)
    requires Invariant(w)
    ensures Accounted(Step(w, Call(esp, fid)))
  {
    hide Tag, ExitsOf, Kept, WellFormed, Tracked, Covered, LiveShape;
    var w' := Step(w, Call(esp, fid));
    forall t, f | t in w'.shadow.stacks && f in w'.shadow.stacks[t]
      ensures HasFate(w', t, f)
    {
      if t == Tag(esp) {
        PushedFrom(StackOf(w.shadow.stacks, t), (esp + 4) % WORD, Frame(fid, (esp + 4) % WORD, w.next), f);
      }
    }
  }

  lemma CallCovered(w: World, esp: nat, fid: nat)
    requires Invariant(w) && Possible(w, Call(esp, fid))
    ensures Covered(Step(w, Call(esp, fid)))
  {
    var (tag, level) := (Tag(esp), (esp + 4) % WORD);
    CallFrame(w, esp, fid);
    hide Tag, Height, Kept, Decreasing;
    var stack := StackOf(w.shadow.stacks, tag);
    forall f | f in Popped(stack, level)
      ensures f.id in w.returned && w.returned[f.id] <= w.ordinal
    {
      PoppedAreReturned(tag, stack, StackOf(w.live, tag), level, esp % WINDOW + 4, f);
    }
    hide Popped, Tracked, LiveShape, Accounted;
  }

  lemma PushDistinct(live: map<nat, seq<Frame>>, tag: nat, f: Frame)
    requires Distinct(live) && forall t, g :: t in live && g in live[t] ==> g.id < f.id
    ensures Distinct(live[tag := StackOf(live, tag) + [f]])
  {
    var live' := live[tag := StackOf(live, tag) + [f]];
    forall s, i | s in live' && 0 <= i < |live'[s]|
      ensures (s == tag && i == |StackOf(live, tag)|) || (s in live && i < |live[s]| && live'[s][i] == live[s][i] && live'[s][i].id < f.id)
    {
      if s in live && i < |live[s]| {
        assert live[s][i] in live[s];
      }
    }
  }

  lemma CallLiveHeights(w: World, esp: nat, fid: nat)
    requires Invariant(w) && Possible(w, Call(esp, fid))
    ensures LiveHeights(Step(w, Call(esp, fid)))
  {
    CallFrame(w, esp, fid);
    hide Tag, Height, Fire, WellFormed, Tracked, Accounted, Covered, Above, LiveFresh, Distinct;
  }

  lemma CallLiveFresh(w: World, esp: nat, fid: nat)
    requires LiveFresh(w)
    ensures LiveFresh(Step(w, Call(esp, fid)))
  {
    hide Tag, Fire;
  }

  lemma CallLiveShape(w: World, esp: nat, fid: nat)
    requires Invariant(w) && Possible(w, Call(esp, fid))
    ensures LiveShape(Step(w, Call(esp, fid)))
  {
    hide Tag, Fire, WellFormed, Tracked, Accounted, Covered, Above, LiveHeights;
    CallLiveHeights(w, esp, fid);
    CallLiveFresh(w, esp, fid);
    PushDistinct(w.live, Tag(esp), Frame(fid, (esp + 4) % WORD, w.next));
    hide LiveFresh, Distinct;
  }

  lemma CallKeeps(w: World, esp: nat, fid: nat)
    requires Invariant(w) && Possible(w, Call(esp, fid))
    ensures Invariant(Step(w, Call(esp, fid)))
  {
    FireWellFormed(w.shadow, esp, fid, w.next, w.ordinal);
    CallTracked(w, esp, fid);
    CallAccounted(w, esp, fid);
    CallCovered(w, esp, fid);
    CallLiveShape(w, esp, fid);
    hide Fire, Tracked, Accounted, Covered, LiveShape, WellFormed;
  }

  // ---- a return --------------------------------------------------------------------------

  /** The call that returns. */
  lemma ReturnTop(w: World, tag: nat)
    requires Invariant(w) && Possible(w, Return(tag))
    ensures var stack := w.live[tag];
            tag in w.live && stack != [] && stack[|stack| - 1] in stack
            && stack[|stack| - 1].id !in w.returned && stack[|stack| - 1].id < w.next
  {
    hide WellFormed, Tracked, Accounted, Covered, LiveHeights, Distinct;
    var stack := w.live[tag];
    assert stack[|stack| - 1] in stack;
  }

  lemma ReturnTracked(w: World, tag: nat)
    requires Tracked(w)
    ensures Tracked(Step(w, Return(tag)))
  {
  }

  lemma ReturnCovered(w: World, tag: nat)
    requires Invariant(w) && Possible(w, Return(tag))
    ensures Covered(Step(w, Return(tag)))
  {
    ReturnTop(w, tag);
    hide WellFormed, Tracked, Accounted, LiveShape;
  }

  lemma TopOrBelow(stack: seq<Frame>, f: Frame)
    requires f in stack
    ensures f == stack[|stack| - 1] || f in stack[..|stack| - 1]
  {
  }

  lemma ReturnFate(w: World, tag: nat, t: nat, f: Frame)
    requires StackOf(w.live, tag) != [] && HasFate(w, t, f)
    ensures HasFate(Step(w, Return(tag)), t, f)
  {
    if t == tag && f in w.live[tag] {
      TopOrBelow(w.live[tag], f);
    }
  }

  lemma ReturnAccounted(w: World, tag: nat)
    requires Accounted(w) && StackOf(w.live, tag) != []
    ensures Accounted(Step(w, Return(tag)))
  {
    var w' := Step(w, Return(tag));
    assert w'.shadow == w.shadow;
    forall t, f | t in w.shadow.stacks && f in w.shadow.stacks[t]
      ensures HasFate(w', t, f)
    {
      ReturnFate(w, tag, t, f);
    }
    hide Step;
  }

  lemma PopDistinct(live: map<nat, seq<Frame>>, tag: nat)
    requires Distinct(live) && tag in live && live[tag] != []
    ensures Distinct(live[tag := live[tag][..|live[tag]| - 1]])
  {
    var live' := live[tag := live[tag][..|live[tag]| - 1]];
    forall s, i | s in live' && 0 <= i < |live'[s]|
      ensures s in live && i < |live[s]| && live'[s][i] == live[s][i]
    {
    }
  }

  lemma ReturnLiveFresh(w: World, tag: nat)
    requires Invariant(w) && Possible(w, Return(tag))
    ensures LiveFresh(Step(w, Return(tag)))
  {
    ReturnTop(w, tag);
    hide WellFormed, Tracked, Accounted, Covered, LiveHeights;
    var stack, n := w.live[tag], |w.live[tag]| - 1;
    var w' := Step(w, Return(tag));
    forall t, f | t in w'.live && f in w'.live[t]
      ensures f.id < w'.next && f.id !in w'.returned
    {
      var i :| 0 <= i < |w'.live[t]| && w'.live[t][i] == f;
      assert w.live[t][i] == f && f in w.live[t];
      assert w.live[tag][n] == stack[n];
    }
  }

  lemma ReturnLiveShape(w: World, tag: nat)
    requires Invariant(w) && Possible(w, Return(tag))
    ensures LiveShape(Step(w, Return(tag)))
  {
    ReturnLiveFresh(w, tag);
    PopDistinct(w.live, tag);
    assert LiveHeights(Step(w, Return(tag))) by { ReturnLiveHeights(w, tag); }
    hide WellFormed, Tracked, Accounted, Covered, LiveFresh, LiveHeights, Distinct;
  }

  lemma ReturnLiveHeights(w: World, tag: nat)
    requires LiveHeights(w)
    ensures LiveHeights(Step(w, Return(tag)))
  {
    hide Height;
  }

  lemma ReturnKeeps(w: World, tag: nat)
    requires Invariant(w) && Possible(w, Return(tag))
    ensures Invariant(Step(w, Return(tag)))
  {
    ReturnTracked(w, tag);
    ReturnCovered(w, tag);
    ReturnAccounted(w, tag);
    ReturnLiveShape(w, tag);
    hide WellFormed, Tracked, Accounted, Covered, LiveShape;
  }

  // ---- a frame boundary --------------------------------------------------------------------

  lemma ClosingKeepsLive(w: World, esp: nat, tag: nat, f: Frame)
    requires WellFormed(w.shadow) && Tracked(w) && Possible(w, Boundary(esp)) && tag in w.live && f in w.live[tag]
    ensures tag in w.shadow.stacks && f in Closing(w.shadow.stacks, tag, esp)
    ensures f !in w.shadow.stacks[tag][|Closing(w.shadow.stacks, tag, esp)|..]
  {
    HeightOf(esp);
    hide Height, Tag, Kept, Decreasing;
    KeepsLive(tag, w.shadow.stacks[tag], w.live[tag], esp, esp % WINDOW, f);
  }

  lemma BoundaryTracked(w: World, esp: nat)
    requires Invariant(w) && Possible(w, Boundary(esp))
    ensures Tracked(Step(w, Boundary(esp)))
  {
    hide Height, Tag, Closing, Decreasing;
    forall tag, f | tag in w.live && f in w.live[tag]
      ensures f in StackOf(Step(w, Boundary(esp)).shadow.stacks, tag)
    {
      ClosingKeepsLive(w, esp, tag, f);
    }
  }

  lemma BoundaryAccounted(w: World, esp: nat)
    requires Invariant(w)
    ensures Accounted(Step(w, Boundary(esp)))
  {
    hide Height, Tag, Decreasing, Kept;
    var w' := Step(w, Boundary(esp));
    forall tag, f | tag in w'.shadow.stacks && f in w'.shadow.stacks[tag]
      ensures tag in w.shadow.stacks && f in w.shadow.stacks[tag]
    {
      assert f in Closing(w.shadow.stacks, tag, esp);
      hide Closing;
    }
  }

  lemma BoundaryCovered(w: World, esp: nat)
    requires Invariant(w) && Possible(w, Boundary(esp))
    ensures Covered(Step(w, Boundary(esp)))
  {
    hide Height, Tag, Closing, Decreasing, Quiet, Above;
    forall tag, f | tag in w.shadow.stacks && f in w.shadow.stacks[tag][|Closing(w.shadow.stacks, tag, esp)|..]
      ensures f.id in w.returned && w.returned[f.id] <= w.ordinal
    {
      assert f in w.shadow.stacks[tag];
      if tag in w.live && f in w.live[tag] {
        ClosingKeepsLive(w, esp, tag, f);
      }
    }
  }

  lemma BoundaryKeeps(w: World, esp: nat)
    requires Invariant(w) && Possible(w, Boundary(esp))
    ensures Invariant(Step(w, Boundary(esp)))
  {
    FinishWellFormed(w.shadow, esp, w.ordinal + 1);
    BoundaryTracked(w, esp);
    BoundaryAccounted(w, esp);
    BoundaryCovered(w, esp);
    hide Finish, Tracked, Accounted, Covered, WellFormed, Height, Tag;
  }

  // ---- runs ------------------------------------------------------------------------------------

  function Start(): World {
    World(Shadow(map[], {}), map[], map[], 0, 0)
  }

  lemma StepKeeps(w: World, e: Event)
    requires Invariant(w) && Possible(w, e)
    ensures Invariant(Step(w, e))
  {
    hide Invariant, Possible, Step;
    match e {
      case Call(esp, fid) => CallKeeps(w, esp, fid);
      case Return(tag) => ReturnKeeps(w, tag);
      case Boundary(esp) => BoundaryKeeps(w, esp);
    }
  }

  /** The run is one the program can make. */
  ghost predicate Runs(w: World, events: seq<Event>)
    decreases |events|
  {
    events == [] || (Possible(w, events[0]) && Runs(Step(w, events[0]), events[1..]))
  }

  function After(w: World, events: seq<Event>): World
    decreases |events|
  {
    if events == [] then w else After(Step(w, events[0]), events[1..])
  }

  lemma {:induction false} RunKeeps(w: World, events: seq<Event>)
    requires Invariant(w) && Runs(w, events)
    ensures Invariant(After(w, events))
    decreases |events|
  {
    if events != [] {
      hide Invariant, Possible, Step;
      StepKeeps(w, events[0]);
      RunKeeps(Step(w, events[0]), events[1..]);
    }
  }

  /**
   Over every run of calls, returns and quiet frame boundaries, no call in progress is ever
   popped, every recorded exit lies after the frame in which the call returned, and each
   shadow stack stays strictly decreasing and far below the observer's cap.
   */
  lemma ExitsAreLate(events: seq<Event>)
    requires Runs(Start(), events)
    ensures var w := After(Start(), events);
            Tracked(w) && Covered(w) && WellFormed(w.shadow)
            && forall tag :: tag in w.shadow.stacks ==> |w.shadow.stacks[tag]| < 100_000
  {
    RunKeeps(Start(), events);
    var w := After(Start(), events);
    hide Decreasing, Height, Runs, After;
    forall tag | tag in w.shadow.stacks
      ensures |w.shadow.stacks[tag]| < 100_000
    {
      StackFitsWindow(tag, w.shadow.stacks[tag]);
    }
  }

  /**
   Quietness is exactly what a boundary needs: with the current stack's calls above the
   pointer, `finish` keeps every call in progress if and only if none is in progress in
   another 64 KiB window, which a mainline stack across a window line violates.
   */
  lemma FinishKeepsLiveExactly(w: World, esp: nat)
    requires Invariant(w) && esp < WORD && Above(StackOf(w.live, Tag(esp)), Tag(esp), esp % WINDOW)
    ensures Tracked(Step(w, Boundary(esp))) <==> Quiet(w, esp)
  {
    var w' := Step(w, Boundary(esp));
    if Quiet(w, esp) {
      BoundaryTracked(w, esp);
    } else {
      var tag :| tag in w.live && tag != Tag(esp) && w.live[tag] != [];
      var f := w.live[tag][0];
      assert f in w.live[tag];
      assert StackOf(w'.shadow.stacks, tag) == [];
    }
  }
}
