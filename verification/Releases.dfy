/** Releases, the pointer to the active one, and the audit of every change of the pointer. */
module Releases {
  import opened Seqs

  datatype Kind = Live | Replay

  datatype Status = Building | Validated | Active | Retired | Failed

  datatype Release = Release(kind: Kind, status: Status)

  datatype Audit = Audit(previous: Option<string>, next: string)

  datatype Registry = Registry(releases: map<string, Release>, active: Option<string>, audit: seq<Audit>)

  const NO_RELEASES := Registry(map[], None, [])

  predicate Served(s: Status) { s.Validated? || s.Active? || s.Retired? }

  predicate IdChar(c: char) { ('a' <= c <= 'z') || ('A' <= c <= 'Z') || ('0' <= c <= '9') || c == '_' || c == '-' }

  predicate ValidId(id: string) { 1 <= |id| <= 80 && forall n :: 0 <= n < |id| ==> IdChar(id[n]) }

  function WithStatus(g: Registry, id: string, status: Status): Registry
    requires id in g.releases
  {
    g.(releases := g.releases[id := g.releases[id].(status := status)])
  }

  predicate CanRegister(g: Registry, id: string) { ValidId(id) && id !in g.releases }

  function Register(g: Registry, id: string, kind: Kind): Registry {
    if CanRegister(g, id) then g.(releases := g.releases[id := Release(kind, Building)]) else g
  }

  predicate CanValidate(g: Registry, id: string, complete: bool) {
    complete && id in g.releases && g.releases[id].status.Building?
  }

  /** `complete` says that the report passed, the archive is complete and the sink has caught up. */
  function MarkValidated(g: Registry, id: string, complete: bool): Registry {
    if CanValidate(g, id, complete) then WithStatus(g, id, Validated) else g
  }

  predicate CanActivate(g: Registry, id: string, reasoned: bool) {
    reasoned && id in g.releases && Served(g.releases[id].status)
  }

  function Activate(g: Registry, id: string, reasoned: bool): Registry {
    if !CanActivate(g, id, reasoned) || g.active == Some(id) then g
    else
      var g1 := if g.active.Some? && g.active.value in g.releases then WithStatus(g, g.active.value, Retired) else g;
      WithStatus(g1, id, Active).(active := Some(id), audit := g.audit + [Audit(g.active, id)])
  }

  /** The update by which a publication that failed marks its release: it does not look at the status it replaces. */
  function MarkFailed(g: Registry, id: string): Registry {
    if id in g.releases then WithStatus(g, id, Failed) else g
  }

  /** The registry as the database keeps it. */
  class Database {
    var releases: map<string, Release>
    var active: Option<string>
    var audit: seq<Audit>

    ghost function Model(): Registry
      reads this
    {
      Registry(releases, active, audit)
    }

    constructor ()
      ensures Model() == NO_RELEASES
    {
      releases, active, audit := map[], None, [];
    }

    method InsertRelease(id: string, kind: Kind) returns (ok: bool)
      modifies this
      ensures ok == CanRegister(old(Model()), id) && Model() == Register(old(Model()), id, kind)
    {
      if !ValidId(id) || id in releases { return false; }
      releases := releases[id := Release(kind, Building)];
      return true;
    }

    method ValidateRelease(id: string, passed: bool, archiveComplete: bool, sinkComplete: bool) returns (ok: bool)
      modifies this
      ensures var complete := passed && archiveComplete && sinkComplete;
              ok == CanValidate(old(Model()), id, complete) && Model() == MarkValidated(old(Model()), id, complete)
      ensures ok <==> passed && archiveComplete && sinkComplete
                      && id in old(releases) && old(releases[id].status).Building?
      ensures ok ==> id in releases && releases[id].status.Validated?
    {
      if !passed || !archiveComplete || !sinkComplete { return false; }
      if id !in releases || !releases[id].status.Building? { return false; }
      releases := releases[id := releases[id].(status := Validated)];
      return true;
    }

    /** One transaction: the old release retired, the new one active, the pointer moved and the move recorded. */
    method ActivateRelease(id: string, reasoned: bool) returns (ok: bool, previous: Option<string>, changed: bool)
      modifies this
      ensures ok == CanActivate(old(Model()), id, reasoned) && Model() == Activate(old(Model()), id, reasoned)
      ensures ok <==> reasoned && id in old(releases) && old(releases[id].status) in {Validated, Active, Retired}
      ensures ok ==> previous == old(active) && active == Some(id) && (changed <==> old(active) != Some(id))
      ensures changed ==> audit == old(audit) + [Audit(previous, id)] && releases[id].status.Active?
    {
      previous, changed := active, false;
      if !reasoned { return false, previous, false; }
      if id !in releases || !Served(releases[id].status) { return false, previous, false; }
      if active == Some(id) { return true, previous, false; }
      if active.Some? && active.value in releases {
        releases := releases[active.value := releases[active.value].(status := Retired)];
      }
      releases := releases[id := releases[id].(status := Active)];
      active := Some(id);
      audit := audit + [Audit(previous, id)];
      return true, previous, true;
    }
  }

  // Publications, each a process of its own, and operators who activate what they like.

  /** How far a publication has come: its release registered, its results committed, or its release validated. */
  datatype Stage = Registered | Committed | Checked

  /** The registry, and the publications under way by the release each of them has registered. */
  datatype System = System(registry: Registry, publications: map<string, Stage>)

  const NOTHING_PUBLISHED := System(NO_RELEASES, map[])

  datatype Step =
    | RegistersLive(id: string)
    | AcceptsLive(id: string, complete: bool)
    | Publishes(id: string)
    | Aborts(id: string)
    | Commits(id: string)
    | Validates(id: string, complete: bool)
    | Finishes(id: string, activating: bool)
    | Stops(id: string)
    | Activates(id: string, reasoned: bool)

  predicate IsLive(g: Registry, id: string) { id in g.releases && g.releases[id].kind.Live? }

  predicate At(s: System, id: string, stage: Stage) { id in s.publications && s.publications[id] == stage }

  /** A publication registers its release before anything of it can fail, and only once: an identifier that is taken
      ends it. What fails later in it is marked and ends it, so that validation and activation follow only a committed
      publication. A publication may also stop anywhere without a trace. The live release has no publication. */
  function Next(s: System, step: Step): System {
    var g, running := s.registry, s.publications;
    match step
    case RegistersLive(id) => s.(registry := Register(g, id, Live))
    case AcceptsLive(id, complete) => if IsLive(g, id) then s.(registry := MarkValidated(g, id, complete)) else s
    case Publishes(id) => if CanRegister(g, id) then System(Register(g, id, Replay), running[id := Registered]) else s
    case Aborts(id) => if At(s, id, Registered) then System(MarkFailed(g, id), running - {id}) else s
    case Commits(id) => if At(s, id, Registered) then s.(publications := running[id := Committed]) else s
    case Validates(id, complete) =>
      if !At(s, id, Committed) then s
      else System(MarkValidated(g, id, complete),
                  if CanValidate(g, id, complete) then running[id := Checked] else running - {id})
    case Finishes(id, activating) =>
      if At(s, id, Checked) then System(if activating then Activate(g, id, true) else g, running - {id}) else s
    case Stops(id) => s.(publications := running - {id})
    case Activates(id, reasoned) => s.(registry := Activate(g, id, reasoned))
  }

  predicate StatusOf(g: Registry, id: string, status: Status) { id in g.releases && g.releases[id].status == status }

  predicate IsServed(g: Registry, id: string) { id in g.releases && Served(g.releases[id].status) }

  /** The one release that is active is the one pointed to. */
  ghost predicate PointerHolds(g: Registry) { forall id :: StatusOf(g, id, Active) <==> g.active == Some(id) }

  /** The release that the audit's first `n` entries lead to. */
  function LeadsTo(audit: seq<Audit>, n: nat): Option<string>
    requires n <= |audit|
  {
    if n == 0 then None else Some(audit[n - 1].next)
  }

  /** The audit leads from no release to the active one, every entry taking up where the one before it ended. */
  ghost predicate AuditHolds(g: Registry) {
    && (forall n :: 0 <= n < |g.audit| ==> g.audit[n].previous == LeadsTo(g.audit, n))
    && g.active == LeadsTo(g.audit, |g.audit|)
  }

  /** Pointer, statuses and audit tell one story. */
  ghost predicate Traced(g: Registry) { PointerHolds(g) && AuditHolds(g) }

  /** What a publication has registered is its own until it is validated: nobody else moves it. */
  predicate OwnedBy(s: System, id: string)
    requires id in s.publications
  {
    && id in s.registry.releases && s.registry.releases[id].kind.Replay?
    && (!s.publications[id].Checked? ==> s.registry.releases[id].status.Building?)
  }

  ghost predicate Inv(s: System) {
    Traced(s.registry) && forall id :: id in s.publications ==> OwnedBy(s, id)
  }

  lemma ActivatePoints(g: Registry, id: string, reasoned: bool, other: string)
    requires PointerHolds(g) && Activate(g, id, reasoned).active != g.active
    ensures StatusOf(Activate(g, id, reasoned), other, Active) <==> other == id
  {
    assert StatusOf(g, other, Active) <==> g.active == Some(other);
    if g.active.Some? { assert StatusOf(g, g.active.value, Active); }
  }

  lemma AuditGrows(audit: seq<Audit>, active: Option<string>, id: string)
    requires forall n :: 0 <= n < |audit| ==> audit[n].previous == LeadsTo(audit, n)
    requires active == LeadsTo(audit, |audit|)
    ensures var longer := audit + [Audit(active, id)];
            && (forall n :: 0 <= n < |longer| ==> longer[n].previous == LeadsTo(longer, n))
            && LeadsTo(longer, |longer|) == Some(id)
  {
    var longer := audit + [Audit(active, id)];
    forall n | 0 <= n < |longer|
      ensures longer[n].previous == LeadsTo(longer, n)
    {
      if n < |audit| { assert longer[n].previous == LeadsTo(audit, n); }
    }
  }

  /** An activation moves pointer, audit and statuses together, and no release that is still building. */
  lemma ActivateKeeps(g: Registry, id: string, reasoned: bool)
    requires Traced(g)
    ensures Traced(Activate(g, id, reasoned))
    ensures forall other :: StatusOf(g, other, Building) ==> StatusOf(Activate(g, id, reasoned), other, Building)
  {
    var g' := Activate(g, id, reasoned);
    if g.active.Some? { assert StatusOf(g, g.active.value, Active); }
    if g'.active != g.active {
      AuditGrows(g.audit, g.active, id);
      forall other
        ensures StatusOf(g', other, Active) <==> g'.active == Some(other)
      {
        ActivatePoints(g, id, reasoned, other);
      }
    }
  }

  /** A status that comes from and leads to anything but active does not touch the pointer. */
  lemma OtherStatusKeeps(g: Registry, id: string, status: Status)
    requires Traced(g) && id in g.releases && !g.releases[id].status.Active? && !status.Active?
    ensures Traced(WithStatus(g, id, status))
  {
    forall other
      ensures StatusOf(WithStatus(g, id, status), other, Active) <==> StatusOf(g, other, Active)
    {
    }
  }

  lemma RegisterKeeps(g: Registry, id: string, kind: Kind)
    requires Traced(g)
    ensures Traced(Register(g, id, kind))
  {
    forall other
      ensures StatusOf(Register(g, id, kind), other, Active) <==> StatusOf(g, other, Active)
    {
    }
  }

  lemma StepTraces(s: System, step: Step)
    requires Inv(s)
    ensures Traced(Next(s, step).registry)
  {
    var g := s.registry;
    match step
    case RegistersLive(id) => RegisterKeeps(g, id, Live);
    case Publishes(id) => RegisterKeeps(g, id, Replay);
    case AcceptsLive(id, complete) => if CanValidate(g, id, complete) { OtherStatusKeeps(g, id, Validated); }
    case Validates(id, complete) => if CanValidate(g, id, complete) { OtherStatusKeeps(g, id, Validated); }
    case Aborts(id) => if At(s, id, Registered) { OtherStatusKeeps(g, id, Failed); }
    case Finishes(id, _) => ActivateKeeps(g, id, true);
    case Activates(id, reasoned) => ActivateKeeps(g, id, reasoned);
    case _ =>
  }

  lemma StepOwns(s: System, step: Step, id: string)
    requires Inv(s) && id in Next(s, step).publications
    ensures OwnedBy(Next(s, step), id)
  {
    var g := s.registry;
    if id in s.publications { assert OwnedBy(s, id); }
    match step
    case Finishes(own, _) => ActivateKeeps(g, own, true);
    case Activates(other, reasoned) => ActivateKeeps(g, other, reasoned);
    case _ =>
  }

  /** Every step of any publication or operator keeps the pointer, the audit and the ownership of what is published. */
  lemma StepKeeps(s: System, step: Step)
    requires Inv(s)
    ensures Inv(Next(s, step))
  {
    StepTraces(s, step);
    forall id | id in Next(s, step).publications
      ensures OwnedBy(Next(s, step), id)
    {
      StepOwns(s, step, id);
    }
  }

  /** How a status may change: forwards to being served or failed, and between the served ones. */
  predicate Succeeds(before: Status, after: Status) {
    match before
    case Building => after.Building? || after.Validated? || after.Failed?
    case Failed => after.Failed?
    case Validated => after.Validated? || after.Active?
    case _ => after.Active? || after.Retired?
  }

  /** No release is ever forgotten, and every status follows its life cycle; what is served stays served. */
  lemma StepSucceeds(s: System, step: Step, id: string)
    requires Inv(s) && id in s.registry.releases
    ensures id in Next(s, step).registry.releases
    ensures Succeeds(s.registry.releases[id].status, Next(s, step).registry.releases[id].status)
  {
    if s.registry.active.Some? { assert StatusOf(s.registry, s.registry.active.value, Active); }
    if step.Aborts? && At(s, step.id, Registered) { assert OwnedBy(s, step.id); }
  }

  function Run(steps: seq<Step>): System {
    if steps == [] then NOTHING_PUBLISHED else Next(Run(steps[..|steps| - 1]), steps[|steps| - 1])
  }

  /** For any interleaving of publications, failures and activations: the active release is the one pointed to, and
      the audit leads to it without a gap. */
  lemma {:induction false} RunKeeps(steps: seq<Step>)
    ensures Inv(Run(steps))
  {
    if steps != [] {
      RunKeeps(steps[..|steps| - 1]);
      StepKeeps(Run(steps[..|steps| - 1]), steps[|steps| - 1]);
    }
  }

  /** However publications and activations interleave, a publication that fails finds its release still building: it
      neither moves the pointer nor takes anything out of service. */
  lemma FailureFindsItBuilding(steps: seq<Step>, id: string)
    requires At(Run(steps), id, Registered)
    ensures StatusOf(Run(steps).registry, id, Building)
    ensures StatusOf(Next(Run(steps), Aborts(id)).registry, id, Failed)
  {
    RunKeeps(steps);
    assert OwnedBy(Run(steps), id);
  }

  /** What a status may have become some time later. */
  predicate MayBecome(before: Status, after: Status) {
    match before
    case Building => true
    case Failed => after.Failed?
    case Validated => after.Validated? || after.Active? || after.Retired?
    case _ => after.Active? || after.Retired?
  }

  /** In any run no release is forgotten and none turns back: failed is final, and neither a validated release nor one
      that has been active is ever building or failed again. */
  lemma {:induction false} LifeCycleHolds(before: seq<Step>, more: seq<Step>, id: string)
    requires id in Run(before).registry.releases
    ensures var g, g' := Run(before).registry, Run(before + more).registry;
            id in g'.releases && MayBecome(g.releases[id].status, g'.releases[id].status)
  {
    if more == [] {
      assert before + more == before;
    } else {
      var init := before + more[..|more| - 1];
      assert (before + more)[..|before + more| - 1] == init;
      LifeCycleHolds(before, more[..|more| - 1], id);
      RunKeeps(init);
      StepSucceeds(Run(init), more[|more| - 1], id);
    }
  }

  /** Whatever happens after a release was first served: it is served for good. */
  lemma ServedStaysServed(before: seq<Step>, more: seq<Step>, id: string)
    requires IsServed(Run(before).registry, id)
    ensures IsServed(Run(before + more).registry, id)
  {
    LifeCycleHolds(before, more, id);
  }

  // Why a release has the status it has.

  /** The step tries to validate the release on a complete report. */
  predicate Clears(step: Step, id: string) {
    (step.Validates? || step.AcceptsLive?) && step.id == id && step.complete
  }

  /** The step activates the release, as an operator who gives a reason or as the last act of its publication. */
  predicate Raises(step: Step, id: string) {
    || (step.Activates? && step.id == id && step.reasoned)
    || (step.Finishes? && step.id == id && step.activating)
  }

  predicate Registers(step: Step, id: string) { (step.RegistersLive? || step.Publishes?) && step.id == id }

  /** What must have happened to a release that now is as it is. */
  ghost predicate Explained(steps: seq<Step>, g: Registry, id: string) {
    && (id in g.releases ==>
          && 1 <= |id| <= 80
          && (forall n :: 0 <= n < |id| ==>
                ('a' <= id[n] <= 'z') || ('A' <= id[n] <= 'Z') || ('0' <= id[n] <= '9') || id[n] == '_' || id[n] == '-')
          && (exists n :: 0 <= n < |steps| && Registers(steps[n], id)))
    && (id in g.releases && g.releases[id].status in {Validated, Active, Retired} ==>
          exists n :: 0 <= n < |steps| && Clears(steps[n], id))
    && (id in g.releases && g.releases[id].status in {Active, Retired} ==>
          exists n :: 0 <= n < |steps| && Raises(steps[n], id))
  }

  /** The status of a release changes only by a step about it, or by the activation of another. */
  lemma StatusMoves(s: System, step: Step, id: string)
    requires Inv(s) && id in Next(s, step).registry.releases
    ensures var g, g' := s.registry, Next(s, step).registry;
            && (id !in g.releases ==> Registers(step, id) && ValidId(id) && g'.releases[id].status.Building?)
            && (id in g.releases && !Served(g.releases[id].status) && Served(g'.releases[id].status) ==>
                  Clears(step, id) && g'.releases[id].status.Validated?)
            && (id in g.releases && g.releases[id].status.Validated? && g'.releases[id].status in {Active, Retired} ==>
                  Raises(step, id))
  {
    if s.registry.active.Some? { assert StatusOf(s.registry, s.registry.active.value, Active); }
  }

  lemma StillThere(init: seq<Step>, step: Step, id: string)
    ensures (exists n :: 0 <= n < |init| && Registers(init[n], id)) ==>
              exists n :: 0 <= n < |init + [step]| && Registers((init + [step])[n], id)
    ensures (exists n :: 0 <= n < |init| && Clears(init[n], id)) ==>
              exists n :: 0 <= n < |init + [step]| && Clears((init + [step])[n], id)
    ensures (exists n :: 0 <= n < |init| && Raises(init[n], id)) ==>
              exists n :: 0 <= n < |init + [step]| && Raises((init + [step])[n], id)
  {
    var steps := init + [step];
    if n :| 0 <= n < |init| && Registers(init[n], id) { assert Registers(steps[n], id); }
    if n :| 0 <= n < |init| && Clears(init[n], id) { assert Clears(steps[n], id); }
    if n :| 0 <= n < |init| && Raises(init[n], id) { assert Raises(steps[n], id); }
  }

  /** In any run every release was registered under a well-formed identifier; what is or was served was validated on a
      complete report, and what is or was active was activated with a reason. */
  lemma {:induction false} StatusIsExplained(steps: seq<Step>, id: string)
    ensures Explained(steps, Run(steps).registry, id)
  {
    if steps != [] {
      var init, step := steps[..|steps| - 1], steps[|steps| - 1];
      assert steps == init + [step];
      StatusIsExplained(init, id);
      RunKeeps(init);
      StillThere(init, step, id);
      assert steps[|init|] == step;
      if id in Run(steps).registry.releases {
        StatusMoves(Run(init), step, id);
        if id in Run(init).registry.releases { StepSucceeds(Run(init), step, id); }
      }
    }
  }

  lemma RunOneMore(steps: seq<Step>, step: Step)
    ensures Run(steps + [step]) == Next(Run(steps), step)
  {
    assert (steps + [step])[..|steps|] == steps;
  }

  lemma UndisturbedUntilChecked(s: System, id: string)
    requires Inv(s) && CanRegister(s.registry, id)
    ensures var t := Next(Next(Next(s, Publishes(id)), Commits(id)), Validates(id, true));
            At(t, id, Checked) && StatusOf(t.registry, id, Validated) && t.registry.active == s.registry.active
  {
  }

  lemma FinishActivates(s: System, id: string)
    requires At(s, id, Checked) && StatusOf(s.registry, id, Validated) && s.registry.active != Some(id)
    ensures var g := Next(s, Finishes(id, true)).registry; g.active == Some(id) && StatusOf(g, id, Active)
  {
  }

  /** A publication under a free identifier that nothing disturbs ends with its release active. */
  lemma PublicationActivates(steps: seq<Step>, id: string)
    requires id !in Run(steps).registry.releases && 1 <= |id| <= 80
    requires forall n :: 0 <= n < |id| ==>
               ('a' <= id[n] <= 'z') || ('A' <= id[n] <= 'Z') || ('0' <= id[n] <= '9') || id[n] == '_' || id[n] == '-'
    ensures var all := steps + [Publishes(id)] + [Commits(id)] + [Validates(id, true)] + [Finishes(id, true)];
            var g := Run(all).registry;
            g.active == Some(id) && id in g.releases && g.releases[id].status.Active?
  {
    var s := Run(steps);
    RunKeeps(steps);
    assert !StatusOf(s.registry, id, Active);
    RunOneMore(steps, Publishes(id));
    RunOneMore(steps + [Publishes(id)], Commits(id));
    RunOneMore(steps + [Publishes(id)] + [Commits(id)], Validates(id, true));
    RunOneMore(steps + [Publishes(id)] + [Commits(id)] + [Validates(id, true)], Finishes(id, true));
    UndisturbedUntilChecked(s, id);
    FinishActivates(Run(steps + [Publishes(id)] + [Commits(id)] + [Validates(id, true)]), id);
  }
}
