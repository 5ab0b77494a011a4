/** Dispatches and registrations interleaved (`observable/`): callbacks run outside the lock and
    may register, remove or trigger again, so any operation may happen between any two. */
module ObservableRuns {
  import opened Observables

  /** A registered callback as a value; `id` is its identity. */
  datatype Rec = Rec(id: nat, event: string, fn: int, unique: bool)

  function RecFn(r: Rec): int { r.fn }
  predicate RecUnique(r: Rec) { r.unique }

  /** A dispatch in progress still has to call handed[lo..hi]. */
  datatype Frame = Frame(lo: nat, hi: nat)

  /** `handed` lists everything dispatches were ever handed; `calls` the positions in it that were
      called, in order. */
  datatype State = State(registry: Registry<Rec>, spent: set<Rec>, handed: seq<Rec>,
                         frames: map<nat, Frame>, calls: seq<nat>, nextId: nat)

  const START := State(map[], {}, [], map[], [], 0)

  datatype Event =
    | Add(event: string, fn: int, unique: bool)   // On and Once
    | Remove(s: string, fn: int)                  // Off with a function, and after a once-callback
    | Clean(s: string)                            // Off without one
    | Dispatch(frame: nat, s: string)             // getCallbacks of a trigger
    | Invoke(frame: nat)                          // the next callback of a dispatch

  function MakeRecs(names: seq<string>, fn: int, unique: bool, nextId: nat): (made: seq<Rec>)
    ensures |made| == |names|
    ensures forall i :: 0 <= i < |made| ==> made[i] == Rec(nextId + i, names[i], fn, unique)
  {
    seq(|names|, i requires 0 <= i < |names| => Rec(nextId + i, names[i], fn, unique))
  }

  function Step(s: State, e: Event): State {
    match e
    case Add(event, fn, unique) =>
      var names := Words(event);
      s.(registry := AddAll(s.registry, names, MakeRecs(names, fn, unique, s.nextId)), nextId := s.nextId + |names|)
    case Remove(name, fn) => s.(registry := RemoveFrom(s.registry, name, RecFn, fn))
    case Clean(name) => s.(registry := Cleaned(s.registry, name))
    case Dispatch(frame, name) =>
      if frame in s.frames then s
      else
        var cbs := Snapshot(Listed(s.registry, name), RecUnique, s.spent);
        s.(handed := s.handed + cbs, frames := s.frames[frame := Frame(|s.handed|, |s.handed| + |cbs|)],
           spent := s.spent + set r | r in cbs && r.unique)
    case Invoke(frame) =>
      if frame !in s.frames || s.frames[frame].lo >= s.frames[frame].hi then s
      else
        var f := s.frames[frame];
        s.(calls := s.calls + [f.lo], frames := s.frames[frame := Frame(f.lo + 1, f.hi)])
  }

  function Run(events: seq<Event>): State {
    if events == [] then START else Step(Run(events[..|events| - 1]), events[|events| - 1])
  }

  // ---------- Once ----------

  /** No once-callback was handed out twice, and those handed out are spent. */
  ghost predicate HandedOk(s: State) {
    && (forall p, q :: 0 <= p < q < |s.handed| && s.handed[p] == s.handed[q] ==> !s.handed[p].unique)
    && (forall p :: 0 <= p < |s.handed| && s.handed[p].unique ==> s.handed[p] in s.spent)
  }

  predicate Pending(f: Frame, p: nat) { f.lo <= p < f.hi }

  ghost predicate FramesApart(frames: map<nat, Frame>, n: nat) {
    && (forall f :: f in frames ==> frames[f].lo <= frames[f].hi <= n)
    && forall f, g, p :: f in frames && g in frames && Pending(frames[f], p) && Pending(frames[g], p) ==> f == g
  }

  ghost predicate NotPending(frames: map<nat, Frame>, p: nat) {
    forall f :: f in frames ==> !Pending(frames[f], p)
  }

  /** No position was called twice or is both called and still to be called. */
  ghost predicate CallsOk(s: State) {
    && FramesApart(s.frames, |s.handed|)
    && (forall i :: 0 <= i < |s.calls| ==> s.calls[i] < |s.handed|)
    && (forall i, j :: 0 <= i < j < |s.calls| ==> s.calls[i] != s.calls[j])
    && forall i :: 0 <= i < |s.calls| ==> NotPending(s.frames, s.calls[i])
  }

  lemma DispatchKeepsHanded(s: State, e: Event)
    requires HandedOk(s) && e.Dispatch?
    ensures HandedOk(Step(s, e))
  {
    if e.frame !in s.frames {
      var list := Listed(s.registry, e.s);
      var cbs := Snapshot(list, RecUnique, s.spent);
      var all := s.handed + cbs;
      forall p, q | 0 <= p < q < |all| && all[p] == all[q]
        ensures !all[p].unique
      {
        if p >= |s.handed| {
          SnapshotOnce(list, RecUnique, s.spent, p - |s.handed|, q - |s.handed|);
        } else if q >= |s.handed| {
          assert cbs[q - |s.handed|] in cbs;
        }
      }
    }
  }

  lemma SameHanded(s: State, e: Event)
    requires HandedOk(s) && !e.Dispatch?
    ensures HandedOk(Step(s, e))
  {
  }

  lemma DispatchKeepsCalls(s: State, e: Event)
    requires CallsOk(s) && e.Dispatch?
    ensures CallsOk(Step(s, e))
  {
    hide Snapshot, Listed;
  }

  lemma InvokeKeepsCalls(s: State, e: Event)
    requires CallsOk(s) && e.Invoke?
    ensures CallsOk(Step(s, e))
  {
    if e.frame in s.frames && s.frames[e.frame].lo < s.frames[e.frame].hi {
      var p := s.frames[e.frame].lo;
      assert Pending(s.frames[e.frame], p);
      var frames' := s.frames[e.frame := Frame(p + 1, s.frames[e.frame].hi)];
      forall f, q | f in frames' && Pending(frames'[f], q)
        ensures f in s.frames && Pending(s.frames[f], q) && q != p
      {
      }
      hide Pending;
      assert FramesApart(frames', |s.handed|);
    }
  }

  lemma OthersKeepCalls(s: State, e: Event)
    requires CallsOk(s) && !e.Dispatch? && !e.Invoke?
    ensures CallsOk(Step(s, e))
  {
    hide AddAll, RemoveFrom, Cleaned;
  }

  lemma StepKeepsCalls(s: State, e: Event)
    requires CallsOk(s)
    ensures CallsOk(Step(s, e))
  {
    hide CallsOk, AddAll, RemoveFrom, Cleaned, Snapshot;
    if e.Dispatch? {
      DispatchKeepsCalls(s, e);
    } else if e.Invoke? {
      InvokeKeepsCalls(s, e);
    } else {
      OthersKeepCalls(s, e);
    }
  }

  lemma {:induction false} RunKeeps(events: seq<Event>)
    ensures HandedOk(Run(events)) && CallsOk(Run(events))
    decreases |events|
  {
    if events != [] {
      var s, e := Run(events[..|events| - 1]), events[|events| - 1];
      RunKeeps(events[..|events| - 1]);
      StepKeepsCalls(s, e);
      if e.Dispatch? {
        DispatchKeepsHanded(s, e);
      } else {
        SameHanded(s, e);
      }
    }
  }

  /** Whatever is registered, removed or triggered in between, also by callbacks themselves, a
      record registered by Once is called at most once. */
  lemma OnceIsCalledOnce(events: seq<Event>, i: nat, j: nat)
    requires var s := Run(events); i < j < |s.calls|
    ensures var s := Run(events);
            && s.calls[i] < |s.handed| && s.calls[j] < |s.handed|
            && (s.handed[s.calls[i]] == s.handed[s.calls[j]] ==> !s.handed[s.calls[i]].unique)
  {
    RunKeeps(events);
    hide Run;
  }

  // ---------- The lists ----------

  /** No list is empty; every record sits in the list of its own event, and every list is in the
      order of registration, which is the order of the ids. */
  ghost predicate RegistryOk(s: State) {
    && NoEmptyLists(s.registry)
    && (forall name, i :: name in s.registry && 0 <= i < |s.registry[name]| ==>
          s.registry[name][i].event == name && s.registry[name][i].id < s.nextId)
    && (forall name, i, j :: name in s.registry && 0 <= i < j < |s.registry[name]| ==>
          s.registry[name][i].id < s.registry[name][j].id)
  }

  /** A list of records of one event in the order of their ids, which are below a bound. */
  ghost predicate ListOk(list: seq<Rec>, name: string, bound: nat) {
    && (forall i :: 0 <= i < |list| ==> list[i].event == name && list[i].id < bound)
    && (forall i, j :: 0 <= i < j < |list| ==> list[i].id < list[j].id)
  }

  lemma ListedOk(s: State, name: string)
    requires RegistryOk(s)
    ensures ListOk(Listed(s.registry, name), name, s.nextId)
  {
  }

  lemma ConsOk(r: Rec, tail: seq<Rec>, from: seq<Rec>, name: string, bound: nat)
    requires ListOk(tail, name, bound) && r.event == name && r.id < bound
    requires (forall x :: x in tail ==> x in from) && forall x :: x in from ==> r.id < x.id
    ensures ListOk([r] + tail, name, bound)
  {
    forall i | 0 <= i < |tail|
      ensures r.id < tail[i].id
    {
      assert tail[i] in from;
    }
  }

  lemma {:induction false} SweepOk(list: seq<Rec>, name: string, bound: nat, fn: int)
    requires ListOk(list, name, bound)
    ensures ListOk(Sweep(list, RecFn, fn), name, bound)
    ensures forall r :: r in Sweep(list, RecFn, fn) ==> r in list
    decreases |list|
  {
    if list != [] {
      if list[0].fn != fn {
        SweepOk(list[1..], name, bound, fn);
        ConsOk(list[0], Sweep(list[1..], RecFn, fn), list[1..], name, bound);
      } else if |list| > 1 {
        SweepOk(list[2..], name, bound, fn);
        ConsOk(list[1], Sweep(list[2..], RecFn, fn), list[2..], name, bound);
      }
    }
  }

  lemma {:induction false} NewOk(names: seq<string>, made: seq<Rec>, fn: int, unique: bool, nextId: nat, name: string)
    requires |names| == |made| && forall i :: 0 <= i < |made| ==> made[i] == Rec(nextId + i, names[i], fn, unique)
    ensures ListOk(NewFor(names, made, name), name, nextId + |names|)
    ensures forall r :: r in NewFor(names, made, name) ==> r.id >= nextId
    decreases |names|
  {
    if names != [] {
      NewOk(names[..|names| - 1], made[..|names| - 1], fn, unique, nextId, name);
    }
  }

  lemma AddStep(s: State, event: string, fn: int, unique: bool)
    ensures var s', names := Step(s, Add(event, fn, unique)), Words(event);
            && s'.nextId == s.nextId + |names|
            && s'.registry == AddAll(s.registry, names, MakeRecs(names, fn, unique, s.nextId))
  {
    hide AddAll, Words, MakeRecs;
  }

  /** Records made later, put behind the earlier ones. */
  lemma JoinOk(list: seq<Rec>, more: seq<Rec>, name: string, low: nat, bound: nat)
    requires ListOk(list, name, low) && ListOk(more, name, bound) && low <= bound
    requires forall r :: r in more ==> r.id >= low
    ensures ListOk(list + more, name, bound)
  {
    assert forall i :: 0 <= i < |more| ==> more[i] in more;
  }

  lemma AddKeepsOne(s: State, event: string, fn: int, unique: bool, name: string)
    requires RegistryOk(s)
    ensures var s' := Step(s, Add(event, fn, unique));
            ListOk(Listed(s'.registry, name), name, s'.nextId)
  {
    var names := Words(event);
    var made := MakeRecs(names, fn, unique, s.nextId);
    ListedOk(s, name);
    AddedAtEnd(s.registry, names, made, name);
    NewOk(names, made, fn, unique, s.nextId, name);
    hide *;
    JoinOk(Listed(s.registry, name), NewFor(names, made, name), name, s.nextId, s.nextId + |names|);
    AddStep(s, event, fn, unique);
  }

  lemma RegistryFromLists(s: State)
    requires NoEmptyLists(s.registry)
    requires forall name :: name in s.registry ==> ListOk(Listed(s.registry, name), name, s.nextId)
    ensures RegistryOk(s)
  {
    forall name | name in s.registry
      ensures ListOk(s.registry[name], name, s.nextId)
    {
    }
  }

  lemma RegistryHasNoEmpty(s: State)
    requires RegistryOk(s)
    ensures NoEmptyLists(s.registry)
  {
  }

  lemma StepKeepsRegistry(s: State, e: Event)
    requires RegistryOk(s)
    ensures RegistryOk(Step(s, e))
  {
    hide Words, AddAll, Sweep, Snapshot, ListOk, RegistryOk;
    var s' := Step(s, e);
    RegistryHasNoEmpty(s);
    if e.Add? {
      AddKeepsLists(s.registry, Words(e.event), MakeRecs(Words(e.event), e.fn, e.unique, s.nextId));
    }
    forall name | name in s'.registry
      ensures ListOk(Listed(s'.registry, name), name, s'.nextId)
    {
      ListedOk(s, name);
      if e.Add? {
        AddKeepsOne(s, e.event, e.fn, e.unique, name);
      } else if e.Remove? && e.s == name {
        SweepOk(Listed(s.registry, name), name, s.nextId, e.fn);
      }
    }
    RegistryFromLists(s');
  }

  lemma {:induction false} RegistryAlwaysOk(events: seq<Event>)
    ensures RegistryOk(Run(events))
    decreases |events|
  {
    hide Step;
    if events != [] {
      RegistryAlwaysOk(events[..|events| - 1]);
      StepKeepsRegistry(Run(events[..|events| - 1]), events[|events| - 1]);
    }
  }

  lemma {:induction false} UnspentInOrder(list: seq<Rec>, name: string, bound: nat, spent: set<Rec>)
    requires ListOk(list, name, bound)
    ensures ListOk(Unspent(list, RecUnique, spent), name, bound)
    ensures forall r :: r in Unspent(list, RecUnique, spent) ==> r in list
    decreases |list|
  {
    if list != [] {
      UnspentInOrder(list[1..], name, bound, spent);
      ConsOk(list[0], Unspent(list[1..], RecUnique, spent), list[1..], name, bound);
    }
  }

  lemma InOrder(cbs: seq<Rec>, name: string, bound: nat)
    requires ListOk(cbs, name, bound)
    ensures forall i, j :: 0 <= i < j < |cbs| ==> cbs[i].id < cbs[j].id
    ensures forall r :: r in cbs ==> r.event == name
  {
  }

  lemma HandsOut(s: State, frame: nat, name: string)
    requires frame !in s.frames && ListOk(Listed(s.registry, name), name, s.nextId)
    ensures var s' := Step(s, Dispatch(frame, name));
            && s'.handed == s.handed + Unspent(Listed(s.registry, name), RecUnique, s.spent)
            && frame in s'.frames && s'.frames[frame] == Frame(|s.handed|, |s'.handed|)
  {
    hide Listed, Snapshot, Unspent;
    SnapshotIsRest(Listed(s.registry, name), RecUnique, s.spent);
  }

  /** After any run, a dispatch is handed the callbacks of its event in the order in which they
      were registered, without the spent once-callbacks and without missing any other. */
  lemma DispatchGetsTheRest(events: seq<Event>, frame: nat, name: string)
    requires frame !in Run(events).frames
    ensures var s := Run(events);
            var s' := Step(s, Dispatch(frame, name));
            var cbs := Unspent(Listed(s.registry, name), RecUnique, s.spent);
            && s'.handed == s.handed + cbs && frame in s'.frames && s'.frames[frame] == Frame(|s.handed|, |s'.handed|)
            && (forall i, j :: 0 <= i < j < |cbs| ==> cbs[i].id < cbs[j].id)
            && forall r :: r in cbs ==> r.event == name && r in Listed(s.registry, name)
  {
    RegistryAlwaysOk(events);
    hide *;
    var s := Run(events);
    var list := Listed(s.registry, name);
    ListedOk(s, name);
    UnspentInOrder(list, name, s.nextId, s.spent);
    InOrder(Unspent(list, RecUnique, s.spent), name, s.nextId);
    HandsOut(s, frame, name);
  }

  // ---------- What each event does ----------

  /** Registering puts one record for every name, with the next ids, behind those of that name. */
  lemma AddDoes(s: State, event: string, fn: int, unique: bool, name: string) returns (from: seq<nat>)
    ensures var s', words := Step(s, Add(event, fn, unique)), Words(event);
            && |Listed(s'.registry, name)| == |Listed(s.registry, name)| + |from|
            && (forall i :: 0 <= i < |Listed(s.registry, name)| ==> Listed(s'.registry, name)[i] == Listed(s.registry, name)[i])
            && (forall i :: 0 <= i < |from| ==>
                  && from[i] < |words| && words[from[i]] == name
                  && Listed(s'.registry, name)[|Listed(s.registry, name)| + i] == Rec(s.nextId + from[i], name, fn, unique))
            && (forall i, j :: 0 <= i < j < |from| ==> from[i] < from[j])
            && (forall n :: 0 <= n < |words| && words[n] == name ==> n in from)
            && s' == s.(registry := s'.registry, nextId := s.nextId + |words|)
  {
    var words := Words(event);
    var made := MakeRecs(words, fn, unique, s.nextId);
    hide Words;
    AddedAtEnd(s.registry, words, made, name);
    hide AddAll, Listed, NewFor;
    from := NewForMeaning(words, made, name);
  }

  /** Removing takes a function from its event, when no two of the event's records have the same. */
  lemma RemoveDoes(s: State, name: string, fn: int)
    requires AllDiffer(s.registry, RecFn)
    ensures var s' := Step(s, Remove(name, fn));
            && s' == s.(registry := s'.registry)
            && forall e :: Listed(s'.registry, e) ==
                           if e == name then Without(Listed(s.registry, e), RecFn, fn) else Listed(s.registry, e)
  {
    hide Without, RemoveFrom, AllDiffer;
    RemoveMeaning(s.registry, name, RecFn, fn);
  }

  lemma CleanDoes(s: State, name: string)
    ensures var s' := Step(s, Clean(name));
            && s' == s.(registry := s'.registry)
            && forall e :: Listed(s'.registry, e) == if e == name || name == "*" then [] else Listed(s.registry, e)
  {
  }

  /** A dispatch that has callbacks left calls the next one; one that has none changes nothing. */
  lemma InvokeDoes(s: State, frame: nat)
    requires CallsOk(s) && frame in s.frames
    ensures var s', f := Step(s, Invoke(frame)), s.frames[frame];
            if f.lo < f.hi then
              && s'.calls == s.calls + [f.lo] && f.lo < |s.handed| && frame in s'.frames && s'.frames[frame] == Frame(f.lo + 1, f.hi)
              && s' == s.(calls := s'.calls, frames := s'.frames) && s'.frames - {frame} == s.frames - {frame}
            else s' == s
  {
  }
}
