/** Profile photos when a commit may take effect although its acknowledgement is lost and the client sees an error. */
module AvatarLostAck {
  import opened Avatar
  import opened Locks
  import opened Options

  /** `unsure`: the requests whose acknowledgement was lost. `removed`: those that removed their own new file. */
  datatype World = World(s: State, unsure: set<Id>, removed: set<Id>)

  datatype Event = Plain(step: Step) | LoseAcknowledgement(r: Id)

  predicate May(w: World, event: Event) {
    match event
    case Plain(step) => Enabled(w.s, step)
    case LoseAcknowledgement(r) => At(w.s, r, RowLocked)
  }

  /** The commit takes effect; the request goes on as if it had not, and leaves the previous file alone. */
  function Unacknowledged(s: State, r: Id): State
    requires At(s, r, RowLocked)
  {
    With(Committed(s, r), r, s.requests[r].(phase := Failing)).(handed := s.handed)
  }

  function After(w: World, event: Event): World
    requires May(w, event)
  {
    match event
    case Plain(step) =>
      World(Apply(w.s, step), w.unsure, if step.RemoveNew? && step.ok then w.removed + {step.r} else w.removed)
    case LoseAcknowledgement(r) => World(Unacknowledged(w.s, r), w.unsure + {r}, w.removed)
  }

  ghost predicate Run(worlds: seq<World>, events: seq<Event>) {
    && |worlds| == |events| + 1 && Init(worlds[0].s) && worlds[0].unsure == {} && worlds[0].removed == {}
    && forall i :: 0 <= i < |events| ==> May(worlds[i], events[i]) && worlds[i + 1] == After(worlds[i], events[i])
  }

  predicate Has(s: State, r: Id, f: File) {
    r in s.requests && s.requests[r].newFile == Some(f)
  }

  /** The file is the new one of an upload that has not been committed. */
  predicate Uncommitted(w: World, r: Id, f: File) {
    Has(w.s, r, f) && (w.s.requests[r].phase in {Written, RowLocked} || (w.s.requests[r].phase == Failing && r !in w.unsure))
  }

  /** The file is the previous one of a request that is about to remove it. */
  predicate Doomed(s: State, r: Id, f: File) {
    At(s, r, Replaced) && FileOf(s.requests[r].previous) == Some(f)
  }

  predicate Gone(w: World, r: Id, f: File) {
    Has(w.s, r, f) && r in w.removed
  }

  /** What is known of a request from its phase. */
  ghost predicate Fits(w: World, r: Id) {
    if r in w.s.requests then
      && RequestOk(w.s, w.s.requests[r], r)
      && (r in w.unsure ==> w.s.requests[r].phase in {Failing, Ended})
      && (r in w.removed ==> w.s.requests[r].phase == Ended)
    else r !in w.unsure && r !in w.removed
  }

  ghost predicate Shape(w: World) {
    w.s.files <= w.s.names && forall r: Id :: Fits(w, r)
  }

  /** Where a file is known, and that no two places contradict each other. */
  ghost predicate Apart(w: World, f: File) {
    && (forall r: Id :: Has(w.s, r, f) || Doomed(w.s, r, f) ==> f in w.s.names)
    && (forall e: Id :: Refers(w.s, e, f) ==> f in w.s.names)
    && (forall r: Id, p: Id :: Has(w.s, r, f) && Has(w.s, p, f) ==> r == p)
    && (forall e: Id, d: Id :: Refers(w.s, e, f) && Refers(w.s, d, f) ==> e == d)
    && (forall e: Id, r: Id :: Refers(w.s, e, f) && Has(w.s, r, f) ==> w.s.requests[r].employee == e)
    && (forall e: Id, r: Id :: Refers(w.s, e, f) ==> !Uncommitted(w, r, f) && !Doomed(w.s, r, f))
    && (forall r: Id, p: Id :: Uncommitted(w, r, f) ==> !Doomed(w.s, p, f))
  }

  /** A file is missing only where it was removed. */
  ghost predicate Missing(w: World, f: File) {
    && (forall r: Id :: Gone(w, r, f) ==> f !in w.s.files)
    && (forall r: Id :: Uncommitted(w, r, f) ==> f in w.s.files)
    && (forall e: Id :: Refers(w.s, e, f) && f !in w.s.files ==> exists r <- w.unsure :: Gone(w, r, f))
    && (forall e: Id, r: Id :: Refers(w.s, e, f) && Gone(w, r, f) ==> r in w.unsure)
  }

  ghost predicate Inv(w: World) {
    Shape(w) && forall f: File :: Apart(w, f) && Missing(w, f)
  }

  function Actor(event: Event): Id {
    match event
    case Plain(step) => step.r
    case LoseAcknowledgement(r) => r
  }

  predicate TakesEffect(event: Event) {
    event.LoseAcknowledgement? || event.step.Commit?
  }

  // How each relation moves.

  lemma HasMoves(w: World, event: Event, p: Id, f: File)
    requires Fits(w, Actor(event)) && May(w, event)
    ensures Has(After(w, event).s, p, f) <==> Has(w.s, p, f) || event == Plain(Write(p, f))
  {
  }

  lemma RefersMoves(w: World, event: Event, e: Id, f: File)
    requires Fits(w, Actor(event)) && May(w, event)
    ensures var r := Actor(event);
      Refers(After(w, event).s, e, f) <==>
        if TakesEffect(event) && e == w.s.requests[r].employee then Has(w.s, r, f) else Refers(w.s, e, f)
  {
  }

  lemma DoomedMoves(w: World, event: Event, p: Id, f: File)
    requires Fits(w, Actor(event)) && May(w, event)
    ensures Doomed(After(w, event).s, p, f) <==>
      if p == Actor(event) then event == Plain(Commit(p)) && Refers(w.s, w.s.requests[p].employee, f)
      else Doomed(w.s, p, f)
  {
  }

  predicate KeepsUncommitted(event: Event) {
    event.Plain? && (event.step.LockRow? || event.step.Throw?)
  }

  lemma UncommittedMoves(w: World, event: Event, p: Id, f: File)
    requires Fits(w, Actor(event)) && May(w, event)
    ensures Uncommitted(After(w, event), p, f) <==>
      if p == Actor(event) then event == Plain(Write(p, f)) || (KeepsUncommitted(event) && Uncommitted(w, p, f))
      else Uncommitted(w, p, f)
  {
  }

  lemma GoneMoves(w: World, event: Event, p: Id, f: File)
    requires Fits(w, Actor(event)) && May(w, event)
    ensures Gone(After(w, event), p, f) <==> Gone(w, p, f) || (event == Plain(RemoveNew(p, true)) && Has(w.s, p, f))
  {
  }

  /** What happens to the files: a new name is added, or one known file is removed. */
  lemma FilesMove(w: World, event: Event, f: File)
    requires w.s.files <= w.s.names && Fits(w, Actor(event)) && May(w, event)
    ensures var (s, s') := (w.s, After(w, event).s);
      && (f in s.names ==> f in s'.names)
      && (f in s'.files && f !in s.files ==> f !in s.names && f in s'.names)
      && (event == Plain(Write(Actor(event), f)) ==> f in s'.files && f in s'.names && f !in s.names)
      && (f in s.files && f !in s'.files ==>
            event.Plain? && (Doomed(s, Actor(event), f) || (event == Plain(RemoveNew(Actor(event), true)) && Has(s, Actor(event), f))))
      && (event == Plain(RemoveNew(Actor(event), true)) && Has(s, Actor(event), f) ==> f !in s'.files)
  {
  }

  lemma FitsStays(w: World, event: Event, r: Id)
    requires Fits(w, Actor(event)) && Fits(w, r) && May(w, event)
    ensures Fits(After(w, event), r)
  {
    if event.Plain? && r in w.s.requests {
      StepKeepsRequest(w.s, event.step, r);
    }
  }

  lemma StepKeepsShape(w: World, event: Event)
    requires Shape(w) && May(w, event)
    ensures Shape(After(w, event))
  {
    hide Fits, After, May;
    var w' := After(w, event);
    forall f <- w'.s.files ensures f in w'.s.names {
      FilesMove(w, event, f);
    }
    forall r: Id ensures Fits(w', r) {
      FitsStays(w, event, r);
    }
  }

  /** All that moves of one file. */
  ghost predicate Moved(w: World, w': World, event: Event, f: File)
    requires Actor(event) in w.s.requests || !TakesEffect(event)
  {
    var r := Actor(event);
    && (forall p: Id :: Has(w'.s, p, f) <==> Has(w.s, p, f) || event == Plain(Write(p, f)))
    && (forall e: Id :: Refers(w'.s, e, f) <==>
          if TakesEffect(event) && e == w.s.requests[r].employee then Has(w.s, r, f) else Refers(w.s, e, f))
    && (forall p: Id :: Uncommitted(w', p, f) <==>
          if p == r then event == Plain(Write(p, f)) || (KeepsUncommitted(event) && Uncommitted(w, p, f))
          else Uncommitted(w, p, f))
    && (forall p: Id :: p != r ==> (Doomed(w'.s, p, f) <==> Doomed(w.s, p, f)))
    && (Doomed(w'.s, r, f) ==> event == Plain(Commit(r)) && Refers(w.s, w.s.requests[r].employee, f))
    && (forall p: Id :: Gone(w', p, f) <==> Gone(w, p, f) || (event == Plain(RemoveNew(p, true)) && Has(w.s, p, f)))
  }

  lemma AllMove(w: World, event: Event, f: File)
    requires Fits(w, Actor(event)) && May(w, event)
    ensures Actor(event) in w.s.requests || !TakesEffect(event)
    ensures Moved(w, After(w, event), event, f)
  {
    hide Fits, After, Has, Refers, Uncommitted, Doomed, Gone, KeepsUncommitted;
    var w' := After(w, event);
    forall p: Id
      ensures Has(w'.s, p, f) <==> Has(w.s, p, f) || event == Plain(Write(p, f))
      ensures Refers(w'.s, p, f) <==>
        if TakesEffect(event) && p == w.s.requests[Actor(event)].employee then Has(w.s, Actor(event), f) else Refers(w.s, p, f)
      ensures Uncommitted(w', p, f) <==>
        if p == Actor(event) then event == Plain(Write(p, f)) || (KeepsUncommitted(event) && Uncommitted(w, p, f))
        else Uncommitted(w, p, f)
      ensures Gone(w', p, f) <==> Gone(w, p, f) || (event == Plain(RemoveNew(p, true)) && Has(w.s, p, f))
      ensures p != Actor(event) ==> (Doomed(w'.s, p, f) <==> Doomed(w.s, p, f))
    {
      HasMoves(w, event, p, f);
      RefersMoves(w, event, p, f);
      UncommittedMoves(w, event, p, f);
      GoneMoves(w, event, p, f);
      DoomedMoves(w, event, p, f);
    }
    DoomedMoves(w, event, Actor(event), f);
  }

  /** What the actor of an event was before it. */
  lemma ActorWas(w: World, event: Event, f: File)
    requires Fits(w, Actor(event)) && May(w, event)
    ensures var r := Actor(event);
      && (TakesEffect(event) && Has(w.s, r, f) ==> Uncommitted(w, r, f) && r !in w.removed)
      && (event.Plain? && event.step.RemoveNew? && Has(w.s, r, f) ==> Uncommitted(w, r, f) || r in w.unsure)
      && (event == Plain(Write(r, f)) ==> !Has(w.s, r, f) && f !in w.s.names)
      && w.unsure <= After(w, event).unsure && (forall p <- After(w, event).unsure :: p in w.unsure || p == r)
  {
  }

  lemma OwnersHave(w: World, f: File)
    ensures forall r: Id :: Uncommitted(w, r, f) || Gone(w, r, f) ==> Has(w.s, r, f)
    ensures forall r: Id :: Gone(w, r, f) ==> r in w.removed
  {
  }

  /** A request keeps its employee. */
  lemma EmployeeStays(w: World, event: Event, r: Id)
    requires May(w, event) && r in w.s.requests
    ensures r in After(w, event).s.requests
    ensures After(w, event).s.requests[r].employee == w.s.requests[r].employee
  {
    if event.Plain? {
      StepKeepsEmployee(w.s, event.step, r);
    }
  }

  lemma StepKeepsEmployee(s: State, step: Step, r: Id)
    requires Enabled(s, step) && r in s.requests
    ensures r in Apply(s, step).requests && Apply(s, step).requests[r].employee == s.requests[r].employee
  {
  }

  lemma StepKeepsApart(w: World, event: Event, f: File)
    requires Shape(w) && Apart(w, f) && May(w, event)
    ensures Apart(After(w, event), f)
  {
    hide Fits, After, May, Uncommitted, Doomed, Gone, Refers;
    AllMove(w, event, f);
    ActorWas(w, event, f);
    OwnersHave(w, f);
    FilesMove(w, event, f);
    forall r: Id | r in w.s.requests
      ensures r in After(w, event).s.requests && After(w, event).s.requests[r].employee == w.s.requests[r].employee
    {
      EmployeeStays(w, event, r);
    }
  }

  lemma StepKeepsMissing(w: World, event: Event, f: File)
    requires Shape(w) && Apart(w, f) && Missing(w, f) && May(w, event)
    ensures Missing(After(w, event), f)
  {
    hide Fits, After, May, Uncommitted, Doomed, Gone, Refers, Has;
    AllMove(w, event, f);
    ActorWas(w, event, f);
    OwnersHave(w, f);
    FilesMove(w, event, f);
  }

  lemma StepKeeps(w: World, event: Event)
    requires Inv(w) && May(w, event)
    ensures Inv(After(w, event))
  {
    hide Shape, Apart, Missing, After, May;
    StepKeepsShape(w, event);
    forall f: File ensures Apart(After(w, event), f) && Missing(After(w, event), f) {
      StepKeepsApart(w, event, f);
      StepKeepsMissing(w, event, f);
    }
  }

  lemma Starts(w: World)
    requires Init(w.s) && w.unsure == {} && w.removed == {}
    ensures Inv(w)
  {
    assert forall r: Id :: Fits(w, r);
    forall f: File ensures Apart(w, f) && Missing(w, f) {
      assert forall r: Id :: !Has(w.s, r, f) && !Doomed(w.s, r, f);
    }
  }

  lemma {:induction false} RunKeeps(worlds: seq<World>, events: seq<Event>, n: nat)
    requires Run(worlds, events) && n <= |events|
    ensures Inv(worlds[n])
  {
    hide Inv, Init, May, After;
    if n == 0 {
      Starts(worlds[0]);
    } else {
      RunKeeps(worlds, events, n - 1);
      StepKeeps(worlds[n - 1], events[n - 1]);
    }
  }

  /**
    At every moment of every run the file that an address names is missing exactly when the upload that put the
    address there lost its acknowledgement and then removed the file.
   */
  lemma DanglesExactly(worlds: seq<World>, events: seq<Event>, n: nat, e: Id, f: File)
    requires Run(worlds, events) && n <= |events| && Refers(worlds[n].s, e, f)
    ensures var w := worlds[n];
      f !in w.s.files <==> exists r <- w.unsure :: Gone(w, r, f) && w.s.requests[r].employee == e
  {
    RunKeeps(worlds, events, n);
    assert Apart(worlds[n], f) && Missing(worlds[n], f);
  }

  /** An upload in its transaction may lose its acknowledgement and remove the very file that its address then names. */
  lemma LostAcknowledgementDangles(w: World, r: Id)
    requires Inv(w) && At(w.s, r, RowLocked) && w.s.requests[r].kind == Upload
    ensures var w1 := After(w, LoseAcknowledgement(r));
      && May(w1, Plain(RemoveNew(r, true)))
      && exists f :: Refers(After(w1, Plain(RemoveNew(r, true))).s, w.s.requests[r].employee, f)
                     && f !in After(w1, Plain(RemoveNew(r, true))).s.files
  {
    assert Fits(w, r);
    var w1 := After(w, LoseAcknowledgement(r));
    assert Refers(After(w1, Plain(RemoveNew(r, true))).s, w.s.requests[r].employee, w.s.requests[r].newFile.value);
  }
}
