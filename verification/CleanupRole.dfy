/** Bootstrapping the account-wide cleanup role: a sequence of calls to the identity service, each of which may fail,
    run by any number of builds at the same time. */
module CleanupRole {
  import opened Values

  /** What the role has: the two managed policies, the inline policy and the bootstrapped tag. */
  datatype Role = Role(vpc: bool, basic: bool, inline: bool, tagged: bool)

  /** The fate of a call: it works, it fails without effect, or it takes effect and its caller fails. */
  datatype Fate = Works | FailsBefore | FailsAfter

  /** The next call of a run. */
  datatype Pc = GetRole | CreateRole | AttachVpc(already: bool) | AttachBasic | PutInline | SetTag | Completed | Raised

  datatype Run = Run(vpc: bool, pc: Pc)

  predicate Ended(pc: Pc) { pc.Completed? || pc.Raised? }

  /** A call that needs the role. */
  function OnRole(role: Option<Role>, change: Role -> Role, fate: Fate, next: Pc): (Option<Role>, Pc) {
    if role.None? || fate == FailsBefore then (role, Raised)
    else (Some(change(role.value)), if fate == Works then next else Raised)
  }

  /** `ensure_default_build_image_stack_cleanup_role`, one call at a time. */
  function Step(role: Option<Role>, run: Run, fate: Fate): (Option<Role>, Pc) {
    match run.pc
    case GetRole =>
      if fate != Works then (role, Raised)
      else (role, if role.None? then CreateRole else AttachVpc(role.value.tagged))
    case CreateRole =>
      if role.Some? || fate == FailsBefore then (role, Raised)
      else (Some(Role(false, false, false, false)), if fate == Works then AttachVpc(false) else Raised)
    case AttachVpc(already) =>
      var next := if already then Completed else AttachBasic;
      if run.vpc then OnRole(role, (r: Role) => r.(vpc := true), fate, next) else (role, next)
    case AttachBasic => OnRole(role, (r: Role) => r.(basic := true), fate, PutInline)
    case PutInline => OnRole(role, (r: Role) => r.(inline := true), fate, SetTag)
    case SetTag => OnRole(role, (r: Role) => r.(tagged := true), fate, Completed)
    case Completed => (role, Completed)
    case Raised => (role, Raised)
  }

  /** What a call does to the role, and when: it creates a bare role where none is, or it sets its own bit of a role that
      is there, unless it fails before; attaching the VPC policy is only for runs that ask for it. */
  lemma StepExact(role: Option<Role>, run: Run, fate: Fate)
    ensures var role' := Step(role, run, fate).0;
            && (role'.Some? <==> role.Some? || (run.pc.CreateRole? && fate != FailsBefore))
            && (role.None? && role'.Some? ==> role' == Some(Role(false, false, false, false)))
            && (role.Some? ==>
                  && (role'.value.vpc <==>
                        role.value.vpc || (run.pc.AttachVpc? && run.vpc && fate != FailsBefore))
                  && (role'.value.basic <==> role.value.basic || (run.pc.AttachBasic? && fate != FailsBefore))
                  && (role'.value.inline <==> role.value.inline || (run.pc.PutInline? && fate != FailsBefore))
                  && (role'.value.tagged <==> role.value.tagged || (run.pc.SetTag? && fate != FailsBefore)))
  {
  }

  // ------------------------------------------------------------ any number of runs

  datatype State = State(role: Option<Role>, runs: map<nat, Run>)

  datatype Action = Begin(id: nat, vpc: bool) | Call(id: nat, fate: Fate) | DeleteRole

  function Apply(s: State, a: Action): State {
    match a
    case Begin(id, vpc) => if id in s.runs then s else s.(runs := s.runs[id := Run(vpc, GetRole)])
    case Call(id, fate) =>
      if id !in s.runs then s
      else
        var (role, pc) := Step(s.role, s.runs[id], fate);
        State(role, s.runs[id := s.runs[id].(pc := pc)])
    case DeleteRole => s.(role := None)
  }

  function ApplyAll(s: State, actions: seq<Action>): State
    decreases |actions|
  {
    if actions == [] then s else ApplyAll(Apply(s, actions[0]), actions[1..])
  }

  /** The tag is on the role only if both required policies are. */
  predicate TagIsTrue(role: Option<Role>) {
    role.Some? && role.value.tagged ==> role.value.basic && role.value.inline
  }

  /** The role is there with everything that was asked for. */
  predicate Bootstrapped(role: Option<Role>, vpc: bool) {
    role.Some? && role.value.tagged && role.value.basic && role.value.inline && (vpc ==> role.value.vpc)
  }

  /** What a run has done up to its next call. */
  predicate Progress(role: Option<Role>, run: Run) {
    match run.pc
    case GetRole => true
    case CreateRole => true
    case AttachVpc(already) => role.Some? && (already ==> role.value.tagged)
    case AttachBasic => role.Some? && (run.vpc ==> role.value.vpc)
    case PutInline => role.Some? && role.value.basic && (run.vpc ==> role.value.vpc)
    case SetTag => role.Some? && role.value.basic && role.value.inline && (run.vpc ==> role.value.vpc)
    case Completed => Bootstrapped(role, run.vpc)
    case Raised => true
  }

  ghost predicate Sound(s: State) {
    TagIsTrue(s.role) && forall id :: id in s.runs ==> Progress(s.role, s.runs[id])
  }

  /** Nothing on the role is ever taken away by a run. */
  predicate Grows(role: Option<Role>, role': Option<Role>) {
    role.Some? ==>
      && role'.Some?
      && (role.value.vpc ==> role'.value.vpc) && (role.value.basic ==> role'.value.basic)
      && (role.value.inline ==> role'.value.inline) && (role.value.tagged ==> role'.value.tagged)
  }

  lemma StepSound(role: Option<Role>, run: Run, fate: Fate)
    requires TagIsTrue(role) && Progress(role, run)
    ensures var (role', pc) := Step(role, run, fate);
            TagIsTrue(role') && Progress(role', run.(pc := pc)) && Grows(role, role')
  {
  }

  lemma ApplySound(s: State, a: Action)
    requires Sound(s) && !a.DeleteRole?
    ensures Sound(Apply(s, a))
  {
    if a.Call? && a.id in s.runs {
      StepSound(s.role, s.runs[a.id], a.fate);
      hide Step;
    }
  }

  /** In every interleaving of runs, each of which may fail at any call, before or after it takes effect: the tag implies
      both policies, and a run that completed left the role bootstrapped, which it stays. */
  lemma {:induction false} AlwaysSound(s: State, actions: seq<Action>)
    requires Sound(s) && forall i :: 0 <= i < |actions| ==> !actions[i].DeleteRole?
    ensures var s' := ApplyAll(s, actions);
            && TagIsTrue(s'.role)
            && (forall id :: id in s'.runs && s'.runs[id].pc == Completed ==> Bootstrapped(s'.role, s'.runs[id].vpc))
            && Sound(s')
    decreases |actions|
  {
    if actions != [] {
      ApplySound(s, actions[0]);
      AlwaysSound(Apply(s, actions[0]), actions[1..]);
    }
  }

  /** No run under way or begun asks for the VPC policy. */
  ghost predicate NoneAsksVpc(s: State, actions: seq<Action>) {
    && (forall id :: id in s.runs ==> !s.runs[id].vpc)
    && forall i :: 0 <= i < |actions| && actions[i].Begin? ==> !actions[i].vpc
  }

  /** The role has the VPC policy attached. */
  predicate HasVpc(role: Option<Role>) { role.Some? && role.value.vpc }

  /** If no run asks for the VPC policy, no interleaving attaches it. */
  lemma {:induction false} VpcOnlyIfAsked(s: State, actions: seq<Action>)
    requires NoneAsksVpc(s, actions) && !HasVpc(s.role)
    ensures !HasVpc(ApplyAll(s, actions).role)
    decreases |actions|
  {
    if actions != [] {
      var a := actions[0];
      if a.Call? && a.id in s.runs {
        StepExact(s.role, s.runs[a.id], a.fate);
      }
      hide Step, ApplyAll;
      assert forall i :: 0 <= i < |actions[1..]| ==> actions[1..][i] == actions[i + 1];
      VpcOnlyIfAsked(Apply(s, a), actions[1..]);
      assert ApplyAll(s, actions) == ApplyAll(Apply(s, a), actions[1..]) by {
        Then(s, a, actions[1..]);
        assert [a] + actions[1..] == actions;
      }
    }
  }

  // ------------------------------------------------------------ deleting the role meanwhile

  /** A run that has read an untagged role and attached the basic policy, and will tag the role. */
  ghost predicate AboutToTag(s: State, id: nat) {
    id in s.runs && (s.runs[id].pc.PutInline? || s.runs[id].pc.SetTag?)
  }

  /** What a deletion leaves intact as long as no run is about to tag. */
  predicate TagProgress(role: Option<Role>, pc: Pc) {
    && (pc.PutInline? ==> role.Some? && role.value.basic)
    && (pc.SetTag? ==> role.Some? && role.value.basic && role.value.inline)
  }

  ghost predicate Truthful(s: State) {
    TagIsTrue(s.role) && forall id :: id in s.runs ==> TagProgress(s.role, s.runs[id].pc)
  }

  lemma StepTruthful(role: Option<Role>, run: Run, fate: Fate)
    requires TagIsTrue(role) && TagProgress(role, run.pc)
    ensures var (role', pc) := Step(role, run, fate);
            TagIsTrue(role') && TagProgress(role', pc) && Grows(role, role')
  {
  }

  lemma {:induction false} StaysTruthful(s: State, actions: seq<Action>)
    requires Truthful(s) && forall i :: 0 <= i < |actions| ==> !actions[i].DeleteRole?
    ensures Truthful(ApplyAll(s, actions))
    decreases |actions|
  {
    if actions != [] {
      var a := actions[0];
      if a.Call? && a.id in s.runs {
        StepTruthful(s.role, s.runs[a.id], a.fate);
      }
      assert Truthful(Apply(s, a)) by { hide Step, ApplyAll; }
      StaysTruthful(Apply(s, a), actions[1..]);
    }
  }

  /** If the role is deleted while builds run, some continuation ends with a tag that lies if and only if some run is
      between attaching the basic policy and setting the tag: another run creates the role again, and the first one tags
      it. */
  lemma DeletionBreaksTagIff(s: State)
    requires Sound(s)
    ensures (exists actions: seq<Action> ::
               && (forall i :: 0 <= i < |actions| ==> !actions[i].DeleteRole?)
               && !TagIsTrue(ApplyAll(Apply(s, DeleteRole), actions).role))
            <==> exists id :: AboutToTag(s, id)
  {
    var s' := Apply(s, DeleteRole);
    if id :| AboutToTag(s, id) {
      var b := FreshRun(s.runs);
      var actions := BareRoleTagged(s, id, b);
      assert !TagIsTrue(ApplyAll(s', actions).role);
    } else {
      assert Truthful(s') by {
        forall id | id in s'.runs ensures TagProgress(s'.role, s'.runs[id].pc) { assert !AboutToTag(s, id); }
      }
      forall actions: seq<Action> | forall i :: 0 <= i < |actions| ==> !actions[i].DeleteRole?
        ensures TagIsTrue(ApplyAll(s', actions).role)
      {
        StaysTruthful(s', actions);
      }
    }
  }

  lemma FreshRun(runs: map<nat, Run>) returns (b: nat)
    ensures b !in runs
  {
    b := Above(runs.Keys);
  }

  lemma {:induction false} Above(ids: set<nat>) returns (b: nat)
    ensures forall id :: id in ids ==> id < b
  {
    b := 0;
    if ids != {} {
      var id :| id in ids;
      var rest := Above(ids - {id});
      b := if rest > id then rest else id + 1;
      assert forall k :: k in ids ==> k == id || k in ids - {id};
    }
  }

  lemma BareRoleTagged(s: State, a: nat, b: nat) returns (actions: seq<Action>)
    requires AboutToTag(s, a) && b !in s.runs
    ensures forall i :: 0 <= i < |actions| ==> !actions[i].DeleteRole?
    ensures !TagIsTrue(ApplyAll(Apply(s, DeleteRole), actions).role)
  {
    var s1 := s.(role := None);
    var s2 := s1.(runs := s.runs[b := Run(false, GetRole)]);
    var s3 := s1.(runs := s.runs[b := Run(false, CreateRole)]);
    var s4 := State(Some(Role(false, false, false, false)), s.runs[b := Run(false, AttachVpc(false))]);
    var tagging := if s.runs[a].pc.PutInline? then [Call(a, Works), Call(a, Works)] else [Call(a, Works)];
    Tags(s4, a);
    assert Apply(s2, Call(b, Works)) == s3 && Apply(s3, Call(b, Works)) == s4;
    hide Step, Apply;
    assert Apply(s, DeleteRole) == s1 && Apply(s1, Begin(b, false)) == s2 by {
      ApplyPlain(s, DeleteRole);
      ApplyPlain(s1, Begin(b, false));
    }
    Then(s3, Call(b, Works), tagging);
    Then(s2, Call(b, Works), [Call(b, Works)] + tagging);
    Then(s1, Begin(b, false), [Call(b, Works)] + ([Call(b, Works)] + tagging));
    actions := [Begin(b, false)] + ([Call(b, Works)] + ([Call(b, Works)] + tagging));
  }

  /** A run about to tag does so, though the role has no basic policy. */
  lemma Tags(s: State, a: nat)
    requires AboutToTag(s, a) && s.role.Some? && !s.role.value.basic
    ensures var tagging := if s.runs[a].pc.PutInline? then [Call(a, Works), Call(a, Works)] else [Call(a, Works)];
            !TagIsTrue(ApplyAll(s, tagging).role)
  {
    var s' := Apply(s, Call(a, Works));
    if s.runs[a].pc.PutInline? {
      var s'' := Apply(s', Call(a, Works));
      Then(s', Call(a, Works), []);
      Then(s, Call(a, Works), [Call(a, Works)]);
    } else {
      Then(s, Call(a, Works), []);
    }
  }

  lemma ApplyPlain(s: State, a: Action)
    ensures a.DeleteRole? ==> Apply(s, a) == s.(role := None)
    ensures a.Begin? && a.id !in s.runs ==> Apply(s, a) == s.(runs := s.runs[a.id := Run(a.vpc, GetRole)])
  {
  }

  lemma Then(s: State, a: Action, rest: seq<Action>)
    ensures ApplyAll(s, [a] + rest) == ApplyAll(Apply(s, a), rest)
  {
    assert ([a] + rest)[1..] == rest;
  }

  // ------------------------------------------------------------ one run after the others

  /** The fates of the calls of one run. */
  datatype Fates = Fates(get: Fate, create: Fate, vpc: Fate, basic: Fate, inline: Fate, tag: Fate)

  const NO_FAILURE := Fates(Works, Works, Works, Works, Works, Works)

  function FateOf(fates: Fates, pc: Pc): Fate {
    match pc
    case GetRole => fates.get
    case CreateRole => fates.create
    case AttachVpc(_) => fates.vpc
    case AttachBasic => fates.basic
    case PutInline => fates.inline
    case SetTag => fates.tag
    case _ => Works
  }

  function CallsLeft(pc: Pc): nat {
    match pc
    case GetRole => 6
    case CreateRole => 5
    case AttachVpc(_) => 4
    case AttachBasic => 3
    case PutInline => 2
    case SetTag => 1
    case _ => 0
  }

  /** A run with no other run in between. */
  function Alone(role: Option<Role>, run: Run, fates: Fates): (Option<Role>, bool)
    decreases CallsLeft(run.pc)
  {
    if Ended(run.pc) then (role, run.pc.Completed?)
    else
      var (role', pc) := Step(role, run, FateOf(fates, run.pc));
      Alone(role', run.(pc := pc), fates)
  }

  /** A run on its own completes if and only if it can read the role, create it where none is, attach the VPC policy if it
      asks for it, and, unless it found the tag, attach, put and tag. */
  lemma {:induction false} CompletesIff(role: Option<Role>, vpc: bool, fates: Fates)
    ensures Alone(role, Run(vpc, GetRole), fates).1 <==>
            && fates.get == Works && (role.None? ==> fates.create == Works) && (vpc ==> fates.vpc == Works)
            && ((role.Some? && role.value.tagged)
                || (fates.basic == Works && fates.inline == Works && fates.tag == Works))
  {
    var first := if role.None? then CreateRole else AttachVpc(role.value.tagged);
    AloneStep(role, Run(vpc, GetRole), fates);
    if fates.get == Works {
      var role' := if role.None? then Some(Role(false, false, false, false)) else role;
      AloneStep(role, Run(vpc, first), fates);
      if role.Some? || fates.create == Works {
        FromAttaching(role', vpc, role.Some? && role.value.tagged, fates);
      }
    }
  }

  lemma {:induction false} FromAttaching(role: Option<Role>, vpc: bool, already: bool, fates: Fates)
    requires role.Some?
    ensures Alone(role, Run(vpc, AttachVpc(already)), fates).1 <==>
            && (vpc ==> fates.vpc == Works)
            && (already || (fates.basic == Works && fates.inline == Works && fates.tag == Works))
  {
    hide Alone;
    AloneStep(role, Run(vpc, AttachVpc(already)), fates);
    if (vpc ==> fates.vpc == Works) && !already {
      var role' := Step(role, Run(vpc, AttachVpc(already)), fates.vpc).0;
      AloneStep(role', Run(vpc, AttachBasic), fates);
      if fates.basic == Works {
        var role'' := Step(role', Run(vpc, AttachBasic), Works).0;
        AloneStep(role'', Run(vpc, PutInline), fates);
        if fates.inline == Works {
          AloneStep(Step(role'', Run(vpc, PutInline), Works).0, Run(vpc, SetTag), fates);
        }
      }
    }
  }

  /** After any interleaving with any failures, a further run on its own whose calls work completes, and leaves the role
      bootstrapped with what it asked for. */
  lemma {:induction false} RetryConverges(s: State, actions: seq<Action>, vpc: bool)
    requires Sound(s) && forall i :: 0 <= i < |actions| ==> !actions[i].DeleteRole?
    ensures var (role, completed) := Alone(ApplyAll(s, actions).role, Run(vpc, GetRole), NO_FAILURE);
            completed && Bootstrapped(role, vpc)
  {
    AlwaysSound(s, actions);
    AloneCompletes(ApplyAll(s, actions).role, Run(vpc, GetRole));
  }

  lemma {:induction false} AloneCompletes(role: Option<Role>, run: Run)
    requires TagIsTrue(role) && Progress(role, run) && !run.pc.Raised? && (run.pc.CreateRole? ==> role.None?)
    ensures Alone(role, run, NO_FAILURE).1 && Bootstrapped(Alone(role, run, NO_FAILURE).0, run.vpc)
    decreases CallsLeft(run.pc)
  {
    if !Ended(run.pc) {
      StepSound(role, run, Works);
      var (role', pc) := Step(role, run, Works);
      AloneCompletes(role', run.(pc := pc));
    }
  }

  /** The identity service, and the function as it calls it. */
  class Iam {
    var role: Option<Role>

    /** A call that needs the role. */
    method Change(change: Role -> Role, fate: Fate) returns (ok: bool)
      modifies this
      ensures forall next :: (role, if ok then next else Raised) == OnRole(old(role), change, fate, next)
    {
      if role.None? || fate == FailsBefore {
        return false;
      }
      role := Some(change(role.value));
      ok := fate == Works;
    }

    method EnsureCleanupRole(vpc: bool, fates: Fates) returns (completed: bool)
      modifies this
      ensures (role, completed) == Alone(old(role), Run(vpc, GetRole), fates)
    {
      hide Alone, OnRole;
      AloneStep(role, Run(vpc, GetRole), fates);
      if fates.get != Works {
        return false;
      }
      var already := false;
      if role.None? {
        AloneStep(role, Run(vpc, CreateRole), fates);
        if fates.create == FailsBefore {
          return false;
        }
        role := Some(Role(false, false, false, false));
        if fates.create == FailsAfter {
          return false;
        }
      } else {
        already := role.value.tagged;
      }
      AloneStep(role, Run(vpc, AttachVpc(already)), fates);
      var ok := true;
      if vpc {
        ok := Change((r: Role) => r.(vpc := true), fates.vpc);
        if !ok {
          return false;
        }
      }
      if already {
        return true;
      }
      AloneStep(role, Run(vpc, AttachBasic), fates);
      ok := Change((r: Role) => r.(basic := true), fates.basic);
      if !ok {
        return false;
      }
      AloneStep(role, Run(vpc, PutInline), fates);
      ok := Change((r: Role) => r.(inline := true), fates.inline);
      if !ok {
        return false;
      }
      AloneStep(role, Run(vpc, SetTag), fates);
      completed := Change((r: Role) => r.(tagged := true), fates.tag);
    }
  }

  /** One call of a run on its own; a run that has ended leaves what it left. */
  lemma AloneStep(role: Option<Role>, run: Run, fates: Fates)
    requires !Ended(run.pc)
    ensures var (role', pc) := Step(role, run, FateOf(fates, run.pc));
            && Alone(role, run, fates) == Alone(role', run.(pc := pc), fates)
            && (Ended(pc) ==> Alone(role', run.(pc := pc), fates) == (role', pc.Completed?))
  {
    hide Step;
  }
}
