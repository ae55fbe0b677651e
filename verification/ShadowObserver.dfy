/** The observer object: shadow stacks pushed and popped in place, exits recorded as they are found. */
module ShadowObserver {
  import opened ShadowStack

  class PMFunctionObserver {
    var stacks: map<nat, seq<Frame>>
    var exits: set<Exit>

    constructor ()
      ensures stacks == map[] && exits == {}
    {
      stacks, exits := map[], {};
    }

    ghost function State(): Shadow
      reads this
    {
      Shadow(stacks, exits)
    }

    /** Pop every frame the stack has returned past, recording each exit. */
    method Unwind(tag: nat, esp: nat, ordinal: nat)
      requires tag in stacks
      modifies this
      ensures stacks == old(stacks)[tag := Kept(old(stacks)[tag], esp)]
      ensures exits == old(exits) + ExitsOf(Popped(old(stacks)[tag], esp), ordinal)
    {
      hide Below;
      ghost var stack := stacks[tag];
      assert stack[|stack|..] == [] && ExitsOf([], ordinal) == {};
      while stacks[tag] != [] && !Below(esp, stacks[tag][|stacks[tag]| - 1].level)
        invariant stacks.Keys == old(stacks).Keys && stacks == old(stacks)[tag := stacks[tag]]
        invariant |stacks[tag]| <= |stack| && stacks[tag] == stack[..|stacks[tag]|]
        invariant Kept(stacks[tag], esp) == Kept(stack, esp)
        invariant exits == old(exits) + ExitsOf(stack[|stacks[tag]|..], ordinal)
        decreases |stacks[tag]|
      {
        var n := |stacks[tag]| - 1;
        var f := stacks[tag][n];
        ExitsCons(stack, n, ordinal);
        stacks := stacks[tag := stacks[tag][..n]];
        exits := exits + {Exit(f.id, f.fid, ordinal)};
      }
    }

    /** A probed call: unwind to the caller's level, then push. */
    method Fire(esp: nat, fid: nat, id: nat, ordinal: nat)
      modifies this
      ensures State() == ShadowStack.Fire(old(State()), esp, fid, id, ordinal)
      ensures WellFormed(old(State())) && esp < WORD ==> Fired(old(State()), esp, fid, id, ordinal, State())
    {
      FireMeansIf(State(), esp, fid, id, ordinal);
      hide WellFormed, Fired;
      hide Kept, Popped, ExitsOf;
      var tag, level := esp / WINDOW, (esp + 4) % WORD;
      if tag !in stacks {
        stacks := stacks[tag := []];
      }
      Unwind(tag, level, ordinal + 1);
      stacks := stacks[tag := stacks[tag] + [Frame(fid, level, id)]];
    }

    /** Close the books at a frame boundary. */
    method Finish(esp: nat, ordinal: nat)
      modifies this
      ensures State() == ShadowStack.Finish(old(State()), esp, ordinal)
      ensures WellFormed(old(State())) && esp < WORD ==> Finished(old(State()), esp, ordinal, State())
    {
      hide *;
      FinishMeansIf(State(), esp, ordinal);
      ghost var before := State();
      var todo := stacks.Keys;
      StateIs();
      PartlyNone(before, esp, ordinal);
      while todo != {}
        invariant todo <= before.stacks.Keys
        invariant State() == Partly(before, before.stacks.Keys - todo, esp, ordinal)
        decreases |todo|
      {
        var tag :| tag in todo;
        PartlyNext(before, before.stacks.Keys - todo, tag, esp, ordinal);
        assert before.stacks.Keys - (todo - {tag}) == before.stacks.Keys - todo + {tag};
        StateIs();
        Settle(tag, esp, ordinal);
        StateIs();
        todo := todo - {tag};
      }
      assert before.stacks.Keys - {} == before.stacks.Keys;
      PartlyAll(before, esp, ordinal);
    }

    lemma StateIs()
      ensures State() == Shadow(stacks, exits)
    {
    }

    /** Unwind the current stack, close any other. */
    method Settle(tag: nat, esp: nat, ordinal: nat)
      requires tag in stacks
      modifies this
      ensures stacks == old(stacks)[tag := Closing(old(stacks), tag, esp)]
      ensures exits == old(exits) + ExitsOf(old(stacks)[tag][|Closing(old(stacks), tag, esp)|..], ordinal)
    {
      hide Kept, ExitsOf;
      if tag == esp / WINDOW {
        Unwind(tag, esp, ordinal);
      } else {
        Close(tag, ordinal);
        assert old(stacks)[tag][0..] == old(stacks)[tag];
      }
    }

    /** `while stack: pop` */
    method Close(tag: nat, ordinal: nat)
      requires tag in stacks
      modifies this
      ensures stacks == old(stacks)[tag := []]
      ensures exits == old(exits) + ExitsOf(old(stacks)[tag], ordinal)
    {
      ghost var stack := stacks[tag];
      assert stack[|stack|..] == [] && ExitsOf([], ordinal) == {};
      while stacks[tag] != []
        invariant stacks.Keys == old(stacks).Keys && stacks == old(stacks)[tag := stacks[tag]]
        invariant |stacks[tag]| <= |stack| && stacks[tag] == stack[..|stacks[tag]|]
        invariant exits == old(exits) + ExitsOf(stack[|stacks[tag]|..], ordinal)
        decreases |stacks[tag]|
      {
        var n := |stacks[tag]| - 1;
        var f := stacks[tag][n];
        ExitsCons(stack, n, ordinal);
        stacks := stacks[tag := stacks[tag][..n]];
        exits := exits + {Exit(f.id, f.fid, ordinal)};
      }
      assert stack[0..] == stack;
    }
  }

  lemma FireMeansIf(s: Shadow, esp: nat, fid: nat, id: nat, ordinal: nat)
    ensures WellFormed(s) && esp < WORD ==> Fired(s, esp, fid, id, ordinal, ShadowStack.Fire(s, esp, fid, id, ordinal))
  {
    hide *;
    if WellFormed(s) && esp < WORD {
      FireMeans(s, esp, fid, id, ordinal);
    }
  }

  lemma FinishMeansIf(s: Shadow, esp: nat, ordinal: nat)
    ensures WellFormed(s) && esp < WORD ==> Finished(s, esp, ordinal, ShadowStack.Finish(s, esp, ordinal))
  {
    hide *;
    if WellFormed(s) && esp < WORD {
      FinishMeans(s, esp, ordinal);
    }
  }

  lemma ExitsCons(stack: seq<Frame>, n: nat, ordinal: nat)
    requires n < |stack|
    ensures ExitsOf(stack[n..], ordinal)
            == ExitsOf(stack[n + 1..], ordinal) + {Exit(stack[n].id, stack[n].fid, ordinal)}
  {
    assert stack[n..] == [stack[n]] + stack[n + 1..];
  }

  /** The exits recorded while closing the stacks `tags`. */
  ghost function ClosedExits(stacks: map<nat, seq<Frame>>, tags: set<nat>, esp: nat, ordinal: nat): set<Exit>
    requires tags <= stacks.Keys
  {
    set tag, f | tag in tags && f in stacks[tag][|Closing(stacks, tag, esp)|..] :: Exit(f.id, f.fid, ordinal)
  }

  lemma ClosedExitsNext(stacks: map<nat, seq<Frame>>, tags: set<nat>, tag: nat, esp: nat, ordinal: nat)
    requires tags <= stacks.Keys && tag in stacks
    ensures ClosedExits(stacks, tags + {tag}, esp, ordinal)
            == ClosedExits(stacks, tags, esp, ordinal) + ExitsOf(stacks[tag][|Closing(stacks, tag, esp)|..], ordinal)
  {
    hide Closing;
  }

  ghost function Settled(stacks: map<nat, seq<Frame>>, done: set<nat>, esp: nat): (r: map<nat, seq<Frame>>)
    ensures r.Keys == stacks.Keys
  {
    map tag | tag in stacks :: if tag in done then Closing(stacks, tag, esp) else stacks[tag]
  }

  lemma SettledNext(stacks: map<nat, seq<Frame>>, done: set<nat>, tag: nat, esp: nat)
    requires tag in stacks && tag !in done
    ensures Settled(stacks, done + {tag}, esp) == Settled(stacks, done, esp)[tag := Closing(stacks, tag, esp)]
    ensures Settled(stacks, done, esp)[tag] == stacks[tag]
  {
    hide Closing;
  }

  lemma ClosingSame(a: map<nat, seq<Frame>>, b: map<nat, seq<Frame>>, tag: nat, esp: nat)
    requires tag in a && tag in b && a[tag] == b[tag]
    ensures Closing(a, tag, esp) == Closing(b, tag, esp)
  {
    hide Kept;
  }

  /** The state once the stacks `done` have been settled. */
  ghost function Partly(s: Shadow, done: set<nat>, esp: nat, ordinal: nat): Shadow
    requires done <= s.stacks.Keys
  {
    Shadow(Settled(s.stacks, done, esp), s.exits + ClosedExits(s.stacks, done, esp, ordinal))
  }

  lemma PartlyNone(s: Shadow, esp: nat, ordinal: nat)
    ensures s.stacks.Keys - s.stacks.Keys == {} && Partly(s, {}, esp, ordinal) == s
  {
    assert Settled(s.stacks, {}, esp) == s.stacks;
    assert ClosedExits(s.stacks, {}, esp, ordinal) == {};
  }

  lemma PartlyNext(s: Shadow, done: set<nat>, tag: nat, esp: nat, ordinal: nat)
    requires done <= s.stacks.Keys && tag in s.stacks && tag !in done
    ensures var p := Partly(s, done, esp, ordinal);
            tag in p.stacks && p.stacks[tag] == s.stacks[tag]
            && Closing(p.stacks, tag, esp) == Closing(s.stacks, tag, esp)
            && Partly(s, done + {tag}, esp, ordinal)
               == Shadow(p.stacks[tag := Closing(s.stacks, tag, esp)],
                         p.exits + ExitsOf(s.stacks[tag][|Closing(s.stacks, tag, esp)|..], ordinal))
  {
    hide Settled, Closing, ExitsOf, ClosedExits;
    ClosedExitsNext(s.stacks, done, tag, esp, ordinal);
    SettledNext(s.stacks, done, tag, esp);
    ClosingSame(Settled(s.stacks, done, esp), s.stacks, tag, esp);
  }

  lemma PartlyAll(s: Shadow, esp: nat, ordinal: nat)
    ensures Partly(s, s.stacks.Keys, esp, ordinal) == ShadowStack.Finish(s, esp, ordinal)
  {
    hide Closing;
  }
}
