/** The function observer's shadow stacks, unwound lazily by stack pointer. */
module ShadowStack {
  const WORD := 0x1_0000_0000
  const WINDOW := 0x1_0000

  /** A call that was entered: its function, the stack pointer after its return, and its number. */
  datatype Frame = Frame(fid: nat, level: nat, id: nat)

  /** A recorded exit: the call's number and the boundary it was recorded at. */
  datatype Exit = Exit(id: nat, fid: nat, ordinal: nat)

  datatype Shadow = Shadow(stacks: map<nat, seq<Frame>>, exits: set<Exit>)

  function Tag(esp: nat): nat {
    esp / WINDOW
  }

  function StackOf(stacks: map<nat, seq<Frame>>, tag: nat): seq<Frame> {
    if tag in stacks then stacks[tag] else []
  }

  /** `((esp - level) & 0xFFFFFFFF) >= 0x80000000`: the pointer is still below the frame. */
  predicate Below(esp: nat, level: nat) {
    (esp - level) % WORD >= 0x8000_0000
  }

  /** The frames that stay after popping from the top while the pointer is at or above them. */
  function Kept(stack: seq<Frame>, esp: nat): (r: seq<Frame>)
    ensures |r| <= |stack| && r == stack[..|r|]
    decreases |stack|
  {
    if stack == [] || Below(esp, stack[|stack| - 1].level) then stack
    else Kept(stack[..|stack| - 1], esp)
  }

  function ExitsOf(frames: seq<Frame>, ordinal: nat): set<Exit> {
    set f | f in frames :: Exit(f.id, f.fid, ordinal)
  }

  /** The exits that an unwind to `esp` records. */
  function Popped(stack: seq<Frame>, esp: nat): seq<Frame> {
    stack[|Kept(stack, esp)|..]
  }

  /** `_fire` for a call: the caller's level decides what has returned, and the exits belong to the next boundary. */
  function Fire(s: Shadow, esp: nat, fid: nat, id: nat, ordinal: nat): Shadow {
    var tag, level := Tag(esp), (esp + 4) % WORD;
    var stack := StackOf(s.stacks, tag);
    Shadow(s.stacks[tag := Kept(stack, level) + [Frame(fid, level, id)]],
           s.exits + ExitsOf(Popped(stack, level), ordinal + 1))
  }

  /** What `finish` leaves of the stack `tag`: other stacks than the current one are closed wholesale. */
  function Closing(stacks: map<nat, seq<Frame>>, tag: nat, esp: nat): (r: seq<Frame>)
    requires tag in stacks
    ensures |r| <= |stacks[tag]| && r == stacks[tag][..|r|]
  {
    if tag == Tag(esp) then Kept(stacks[tag], esp) else []
  }

  function Finish(s: Shadow, esp: nat, ordinal: nat): Shadow {
    Shadow(map tag | tag in s.stacks :: Closing(s.stacks, tag, esp),
           s.exits + set tag, f | tag in s.stacks && f in s.stacks[tag][|Closing(s.stacks, tag, esp)|..] ::
                         Exit(f.id, f.fid, ordinal))
  }

  // ---- levels ------------------------------------------------------------------------

  /** A level's height above the start of the 64 KiB window it belongs to. */
  function Height(tag: nat, level: nat): nat {
    (level - tag * WINDOW) % WORD
  }

  /** A stack whose pointers lie in the window `tag` grows downwards: levels strictly decrease. */
  ghost predicate Decreasing(tag: nat, stack: seq<Frame>) {
    tag < WINDOW
    && (forall i :: 0 <= i < |stack| ==> 4 <= Height(tag, stack[i].level) < WINDOW + 4)
    && forall i, j :: 0 <= i < j < |stack| ==> Height(tag, stack[j].level) < Height(tag, stack[i].level)
  }

  ghost predicate WellFormed(s: Shadow) {
    forall tag :: tag in s.stacks ==> Decreasing(tag, s.stacks[tag])
  }

  lemma HeightOf(esp: nat)
    requires esp < WORD
    ensures Tag(esp) < WINDOW && Height(Tag(esp), esp) == esp % WINDOW
    ensures Height(Tag(esp), (esp + 4) % WORD) == esp % WINDOW + 4
  {
  }

  /** The wrap-safe comparison compares heights. */
  lemma BelowIsHigher(tag: nat, esp: nat, level: nat)
    requires Height(tag, esp) < WINDOW + 4 && Height(tag, level) < WINDOW + 4
    ensures Below(esp, level) <==> Height(tag, level) > Height(tag, esp)
  {
    var a, b := Height(tag, esp), Height(tag, level);
    ModDifference(esp - tag * WINDOW, level - tag * WINDOW);
    assert esp - level == (esp - tag * WINDOW) - (level - tag * WINDOW);
  }

  lemma ModDifference(x: int, y: int)
    ensures (x - y) % WORD == (x % WORD - y % WORD) % WORD
  {
  }

  /** Unwinding keeps exactly the frames above the pointer. */
  lemma {:induction false} KeptAreAbove(tag: nat, stack: seq<Frame>, esp: nat, i: nat)
    requires Decreasing(tag, stack) && Height(tag, esp) < WINDOW + 4 && i < |stack|
    ensures i < |Kept(stack, esp)| <==> Height(tag, stack[i].level) > Height(tag, esp)
    decreases |stack|
  {
    var top := |stack| - 1;
    BelowIsHigher(tag, esp, stack[top].level);
    hide Height, Below;
    if !Below(esp, stack[top].level) && i < top {
      KeptAreAbove(tag, stack[..top], esp, i);
    }
  }

  lemma KeptDecreasing(tag: nat, stack: seq<Frame>, n: nat)
    requires Decreasing(tag, stack) && n <= |stack|
    ensures Decreasing(tag, stack[..n])
  {
    hide Height;
  }

  lemma PushDecreasing(tag: nat, stack: seq<Frame>, f: Frame)
    requires Decreasing(tag, stack) && tag < WINDOW && 4 <= Height(tag, f.level) < WINDOW + 4
    requires forall i :: 0 <= i < |stack| ==> Height(tag, stack[i].level) > Height(tag, f.level)
    ensures Decreasing(tag, stack + [f])
  {
    hide Height;
  }

  lemma FireDecreasing(tag: nat, stack: seq<Frame>, esp: nat, fid: nat, id: nat)
    requires Decreasing(tag, stack) && esp < WORD && tag == Tag(esp)
    ensures var level := (esp + 4) % WORD; Decreasing(tag, Kept(stack, level) + [Frame(fid, level, id)])
  {
    var level := (esp + 4) % WORD;
    HeightOf(esp);
    hide Height, Kept;
    var kept := Kept(stack, level);
    KeptDecreasing(tag, stack, |kept|);
    forall i | 0 <= i < |kept|
      ensures Height(tag, kept[i].level) > Height(tag, level)
    {
      KeptAreAbove(tag, stack, level, i);
    }
    PushDecreasing(tag, kept, Frame(fid, level, id));
  }

  lemma EmptyDecreasing(tag: nat)
    requires tag < WINDOW
    ensures Decreasing(tag, [])
  {
  }

  lemma FireWellFormed(s: Shadow, esp: nat, fid: nat, id: nat, ordinal: nat)
    requires WellFormed(s) && esp < WORD
    ensures WellFormed(Fire(s, esp, fid, id, ordinal))
  {
    HeightOf(esp);
    EmptyDecreasing(Tag(esp));
    hide Decreasing, Kept, Tag, ExitsOf;
    FireDecreasing(Tag(esp), StackOf(s.stacks, Tag(esp)), esp, fid, id);
  }

  lemma FinishWellFormed(s: Shadow, esp: nat, ordinal: nat)
    requires WellFormed(s)
    ensures WellFormed(Finish(s, esp, ordinal))
  {
    forall tag | tag in s.stacks
      ensures Decreasing(tag, Closing(s.stacks, tag, esp))
    {
      KeptDecreasing(tag, s.stacks[tag], |Closing(s.stacks, tag, esp)|);
    }
    hide Decreasing, Closing;
  }

  /** A stack fits its window, so the observer's cap of 100000 frames is never reached. */
  lemma {:induction false} StackFitsWindow(tag: nat, stack: seq<Frame>)
    requires Decreasing(tag, stack)
    ensures |stack| <= WINDOW && (stack != [] ==> Height(tag, stack[|stack| - 1].level) + |stack| <= WINDOW + 4)
    decreases |stack|
  {
    if |stack| > 1 {
      KeptDecreasing(tag, stack, |stack| - 1);
      StackFitsWindow(tag, stack[..|stack| - 1]);
    }
    hide Height;
  }

  // ---- what the two events do --------------------------------------------------------------

  /** The first `n` frames are those above height `h` in the window. */
  ghost predicate StaysAbove(tag: nat, stack: seq<Frame>, h: nat, n: nat) {
    n <= |stack| && forall i :: 0 <= i < |stack| ==> (i < n <==> (stack[i].level - 0x1_0000 * tag) % 0x1_0000_0000 > h)
  }

  /** The exits of the frames from the `n`-th on, at one boundary. */
  ghost predicate ExitsFrom(stack: seq<Frame>, n: nat, ordinal: nat, gone: set<Exit>) {
    forall e :: e in gone <==> exists i :: n <= i < |stack| && e == Exit(stack[i].id, stack[i].fid, ordinal)
  }

  /**
   A probed call with the pointer at `esp`: on the stack of its 64 KiB window every call at
   or below the caller's level is over by the next boundary, and the new one is on top.
   */
  ghost predicate Fired(s: Shadow, esp: nat, fid: nat, id: nat, ordinal: nat, r: Shadow) {
    exists n: nat, gone :: FiredWith(s, esp, fid, id, ordinal, r, n, gone)
  }

  ghost predicate FiredWith(s: Shadow, esp: nat, fid: nat, id: nat, ordinal: nat, r: Shadow, n: nat, gone: set<Exit>) {
    var tag := esp / 0x1_0000;
    var stack := if tag in s.stacks then s.stacks[tag] else [];
    StaysAbove(tag, stack, esp % 0x1_0000 + 4, n) && ExitsFrom(stack, n, ordinal + 1, gone)
    && r == Shadow(s.stacks[tag := stack[..n] + [Frame(fid, (esp + 4) % 0x1_0000_0000, id)]], s.exits + gone)
  }

  lemma KeptStays(tag: nat, stack: seq<Frame>, esp: nat)
    requires Decreasing(tag, stack) && Height(tag, esp) < WINDOW + 4
    ensures StaysAbove(tag, stack, Height(tag, esp), |Kept(stack, esp)|)
  {
    forall i | 0 <= i < |stack|
      ensures i < |Kept(stack, esp)| <==> Height(tag, stack[i].level) > Height(tag, esp)
    {
      KeptAreAbove(tag, stack, esp, i);
    }
    hide Kept;
  }

  lemma ExitsAreFrom(stack: seq<Frame>, n: nat, ordinal: nat)
    requires n <= |stack|
    ensures ExitsFrom(stack, n, ordinal, ExitsOf(stack[n..], ordinal))
  {
    forall e
      ensures e in ExitsOf(stack[n..], ordinal) <==> exists i :: n <= i < |stack| && e == Exit(stack[i].id, stack[i].fid, ordinal)
    {
      if e in ExitsOf(stack[n..], ordinal) {
        var f :| f in stack[n..] && e == Exit(f.id, f.fid, ordinal);
        var k :| 0 <= k < |stack[n..]| && stack[n..][k] == f;
        assert stack[n + k] == f;
      }
      if i :| n <= i < |stack| && e == Exit(stack[i].id, stack[i].fid, ordinal) {
        assert stack[n..][i - n] == stack[i];
      }
    }
  }

  lemma StackDecreasing(s: Shadow, tag: nat)
    requires WellFormed(s) && tag < WINDOW
    ensures Decreasing(tag, StackOf(s.stacks, tag))
  {
    EmptyDecreasing(tag);
    hide Decreasing;
  }

  lemma FiredIntro(s: Shadow, esp: nat, fid: nat, id: nat, ordinal: nat, n: nat)
    requires var stack := StackOf(s.stacks, esp / 0x1_0000);
             StaysAbove(esp / 0x1_0000, stack, esp % 0x1_0000 + 4, n) && ExitsFrom(stack, n, ordinal + 1, ExitsOf(stack[n..], ordinal + 1))
             && n == |Kept(stack, (esp + 4) % WORD)|
    ensures Fired(s, esp, fid, id, ordinal, Fire(s, esp, fid, id, ordinal))
  {
    hide Kept, StaysAbove, ExitsFrom, ExitsOf;
    var stack := StackOf(s.stacks, esp / 0x1_0000);
    var gone := ExitsOf(stack[n..], ordinal + 1);
    assert Kept(stack, (esp + 4) % WORD) == stack[..n];
    assert FiredWith(s, esp, fid, id, ordinal, Fire(s, esp, fid, id, ordinal), n, gone);
  }

  lemma FireMeans(s: Shadow, esp: nat, fid: nat, id: nat, ordinal: nat)
    requires WellFormed(s) && esp < WORD
    ensures Fired(s, esp, fid, id, ordinal, Fire(s, esp, fid, id, ordinal))
  {
    HeightOf(esp);
    StackDecreasing(s, Tag(esp));
    var stack := StackOf(s.stacks, Tag(esp));
    var n := |Kept(stack, (esp + 4) % WORD)|;
    hide WellFormed, Decreasing, Height, Kept, ExitsOf, StaysAbove, ExitsFrom, Fire, Fired;
    KeptStays(Tag(esp), stack, (esp + 4) % WORD);
    ExitsAreFrom(stack, n, ordinal + 1);
    FiredIntro(s, esp, fid, id, ordinal, n);
  }

  /** At a boundary stack `t` keeps what is above the pointer if it is the current one, and nothing otherwise. */
  ghost predicate StackFinished(t: nat, stack: seq<Frame>, esp: nat, r: seq<Frame>) {
    |r| <= |stack| && r == stack[..|r|]
    && forall i :: 0 <= i < |stack| ==>
         (i < |r| <==> t == esp / 0x1_0000 && (stack[i].level - 0x1_0000 * t) % 0x1_0000_0000 > esp % 0x1_0000)
  }

  /** The exits afterwards: those before, and one at this boundary for each frame that went. */
  ghost predicate ExitsFinished(s: Shadow, ordinal: nat, r: Shadow) {
    forall e :: e in r.exits <==>
      e in s.exits
      || exists t, i :: t in s.stacks && t in r.stacks && |r.stacks[t]| <= i < |s.stacks[t]|
                        && e == Exit(s.stacks[t][i].id, s.stacks[t][i].fid, ordinal)
  }

  /**
   A frame boundary with the pointer at `esp`: on its own stack every call at or below the
   pointer is over, on any other stack every call.
   */
  ghost predicate Finished(s: Shadow, esp: nat, ordinal: nat, r: Shadow) {
    r.stacks.Keys == s.stacks.Keys && (forall t :: t in s.stacks ==> StackFinished(t, s.stacks[t], esp, r.stacks[t]))
    && ExitsFinished(s, ordinal, r)
  }

  lemma ClosingFinishes(s: Shadow, esp: nat, t: nat)
    requires WellFormed(s) && esp < WORD && t in s.stacks
    ensures StackFinished(t, s.stacks[t], esp, Closing(s.stacks, t, esp))
  {
    HeightOf(esp);
    if t == Tag(esp) {
      KeptStays(t, s.stacks[t], esp);
    }
    hide Decreasing, Height, Kept;
  }

  lemma ExitIs(s: Shadow, esp: nat, ordinal: nat, e: Exit)
    ensures var r := Finish(s, esp, ordinal);
            e in r.exits <==>
              e in s.exits
              || exists t, i :: t in s.stacks && t in r.stacks && |r.stacks[t]| <= i < |s.stacks[t]|
                                && e == Exit(s.stacks[t][i].id, s.stacks[t][i].fid, ordinal)
  {
    hide Closing;
    var r := Finish(s, esp, ordinal);
    if e in r.exits && e !in s.exits {
      var t, f :| t in s.stacks && f in s.stacks[t][|r.stacks[t]|..] && e == Exit(f.id, f.fid, ordinal);
      var k :| 0 <= k < |s.stacks[t][|r.stacks[t]|..]| && s.stacks[t][|r.stacks[t]|..][k] == f;
      assert s.stacks[t][|r.stacks[t]| + k] == f;
    }
    if t, i :| t in s.stacks && t in r.stacks && |r.stacks[t]| <= i < |s.stacks[t]| && e == Exit(s.stacks[t][i].id, s.stacks[t][i].fid, ordinal) {
      assert s.stacks[t][|r.stacks[t]|..][i - |r.stacks[t]|] == s.stacks[t][i];
    }
  }

  lemma ExitsAre(s: Shadow, esp: nat, ordinal: nat)
    ensures ExitsFinished(s, ordinal, Finish(s, esp, ordinal))
  {
    hide Finish;
    forall e
      ensures e in Finish(s, esp, ordinal).exits <==>
                e in s.exits
                || exists t, i :: t in s.stacks && t in Finish(s, esp, ordinal).stacks
                                  && |Finish(s, esp, ordinal).stacks[t]| <= i < |s.stacks[t]|
                                  && e == Exit(s.stacks[t][i].id, s.stacks[t][i].fid, ordinal)
    {
      ExitIs(s, esp, ordinal, e);
    }
  }

  lemma FinishMeans(s: Shadow, esp: nat, ordinal: nat)
    requires WellFormed(s) && esp < WORD
    ensures Finished(s, esp, ordinal, Finish(s, esp, ordinal))
  {
    ExitsAre(s, esp, ordinal);
    hide WellFormed, Closing, StackFinished, ExitsFinished;
    forall t | t in s.stacks
      ensures StackFinished(t, s.stacks[t], esp, Closing(s.stacks, t, esp))
    {
      ClosingFinishes(s, esp, t);
    }
  }
}
