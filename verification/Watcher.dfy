/** The watcher that notices a VM's death, waits for it to boot again and has its monitor restarted:
    one machine per VM, the monitor thread visiting them in turn, boot threads interleaved. */
module Watcher {

  datatype Phase = Shutdown | Booting | Running | Destroying | Restarted

  /** Where a boot thread stands: before opening its own handle, waiting on it, about to report. */
  datatype Stage = Starting | Waiting | Leaving

  /** What was done about a VM and how it turned out, in order: a ping and whether it was answered, the
      handle's destruction, a probe for the VM and whether it was there, the report of a boot thread, a
      restart noticed, and the callback with whether it initialised the handle and whether it succeeded. */
  datatype Act =
    | Pinged(answered: bool)
    | Destroyed
    | Probed(up: bool)
    | Reported
    | Restarting
    | Called(initialised: bool, ok: bool)

  /** A watched VM: the fields the watcher keeps, whether the VM's handle is initialised, the
      unfinished boot threads, whether the restart callback is about to be called, and the history. */
  datatype Vm = Vm(phase: Phase, okay: bool, bootDone: bool, hasCallback: bool,
                   live: bool, threads: seq<Stage>, pending: bool, log: seq<Act>)

  /** What the outside decides: whether the VM answers a ping, whether a probing handle can be opened
      and a thread be created, how a callback ends, which thread moves and whether it got a handle. */
  datatype Input =
    | Poll(alive: bool, up: bool, created: bool)
    | Call(initialised: bool, ok: bool)
    | ThreadMoves(k: nat, handle: bool)

  function Added(hasCallback: bool): Vm {
    Vm(Running, true, false, hasCallback, true, [], false, [])
  }

  // ----- one VM

  /** One visit of the monitor. */
  function Polled(v: Vm, alive: bool, up: bool, created: bool): Vm {
    match v.phase
    case Shutdown =>
      if up then
        v.(phase := Booting, bootDone := false, log := v.log + [Probed(true)],
           threads := if created then v.threads + [Starting] else v.threads)
      else v.(log := v.log + [Probed(false)])
    case Booting =>
      if v.bootDone then
        v.(phase := Restarted, log := v.log + [Restarting], pending := v.hasCallback)
      else v
    case Running =>
      if !v.okay then v
      else if alive then v.(log := v.log + [Pinged(true)])
      else v.(log := v.log + [Pinged(false)], okay := false, phase := Destroying)
    case Destroying => v.(live := false, phase := Shutdown, log := v.log + [Destroyed])
    case Restarted => v.(phase := Running)
  }

  /** The restart callback returns. */
  function CallReturned(v: Vm, initialised: bool, ok: bool): Vm {
    v.(pending := false, live := v.live || initialised, okay := v.okay || ok,
       log := v.log + [Called(initialised, ok)])
  }

  /** A boot thread takes a step; without a handle it ends and reports nothing. */
  function ThreadMoved(v: Vm, k: nat, handle: bool): Vm
    requires k < |v.threads|
  {
    var gone := v.threads[..k] + v.threads[k + 1..];
    match v.threads[k]
    case Starting => if handle then v.(threads := v.threads[k := Waiting]) else v.(threads := gone)
    case Waiting => v.(threads := v.threads[k := Leaving])
    case Leaving => v.(threads := gone, bootDone := true, log := v.log + [Reported])
  }

  /** A callback that succeeds has initialised the handle. */
  predicate Possible(v: Vm, i: Input) {
    match i
    case Poll(_, _, _) => !v.pending
    case Call(initialised, ok) => v.pending && (ok ==> initialised)
    case ThreadMoves(k, _) => k < |v.threads|
  }

  function Next(v: Vm, i: Input): Vm
    requires Possible(v, i)
  {
    match i
    case Poll(alive, up, created) => Polled(v, alive, up, created)
    case Call(initialised, ok) => CallReturned(v, initialised, ok)
    case ThreadMoves(k, handle) => ThreadMoved(v, k, handle)
  }

  // ----- what histories must look like

  datatype Handle = Alive | Dead | Misused

  /** The handle's life told by the history alone: pinged and destroyed only while alive, initialised
      only while dead, and anything else is misuse. */
  function HandleAfter(log: seq<Act>): Handle {
    if log == [] then Alive
    else
      var h := HandleAfter(log[..|log| - 1]);
      match log[|log| - 1]
      case Pinged(_) => if h == Alive then Alive else Misused
      case Destroyed => if h == Alive then Dead else Misused
      case Called(true, _) => if h == Dead then Alive else Misused
      case _ => h
  }

  /** The callback runs right after each restart that is noticed, and at no other time. */
  ghost predicate CalledOncePerRestart(log: seq<Act>, hasCallback: bool) {
    forall i | 0 <= i < |log| :: log[i].Called? <==> hasCallback && JustRestarted(log, i)
  }

  predicate JustRestarted(log: seq<Act>, i: nat)
    requires i <= |log|
  {
    i > 0 && log[i - 1] == Restarting
  }

  ghost predicate Failed(a: Act) {
    a.Called? && !a.ok
  }

  /** Nothing is done about a VM after its callback has failed. */
  ghost predicate QuietAfterFailure(log: seq<Act>) {
    forall i | 0 <= i < |log| - 1 :: !Failed(log[i])
  }

  /** Which act may follow which: a VM is pinged until it fails to answer, then its handle is destroyed;
      then it is probed for until it is there, then a boot thread reports, then the restart is noticed and
      the callback called; and if that succeeds the VM is pinged again. */
  predicate MayFollow(log: seq<Act>, a: Act, hasCallback: bool) {
    match a
    case Pinged(_) => log == [] || log[|log| - 1] == Pinged(true) || Succeeded(log[|log| - 1])
    case Destroyed => log != [] && log[|log| - 1] == Pinged(false)
    case Probed(_) => log != [] && (log[|log| - 1] == Destroyed || log[|log| - 1] == Probed(false))
    case Reported => log != [] && log[|log| - 1] == Probed(true)
    case Restarting => log != [] && log[|log| - 1] == Reported
    case Called(_, _) => hasCallback && log != [] && log[|log| - 1] == Restarting
  }

  predicate Succeeded(a: Act) {
    a.Called? && a.ok
  }

  /** Every act follows one it may follow. */
  ghost predicate History(log: seq<Act>, hasCallback: bool) {
    forall i | 0 <= i < |log| :: MayFollow(log[..i], log[i], hasCallback)
  }

  /** What the last act says about where the VM stands. */
  ghost predicate ToldBy(v: Vm, last: Act) {
    match last
    case Pinged(answered) => if answered then v.okay && v.phase == Running else !v.okay && v.phase == Destroying
    case Destroyed => !v.okay && v.phase == Shutdown
    case Probed(up) => !v.okay && if up then v.phase == Booting && !v.bootDone else v.phase == Shutdown
    case Reported => !v.okay && v.phase == Booting && v.bootDone && v.threads == []
    case Restarting => !v.okay && (v.phase == Restarted || (v.phase == Running && !v.hasCallback))
    case Called(_, ok) => v.okay == ok && (v.phase == Restarted || v.phase == Running)
  }

  ghost predicate StandsAsTold(v: Vm) {
    if v.log == [] then v.okay && v.phase == Running else ToldBy(v, v.log[|v.log| - 1])
  }

  lemma LastTells(v: Vm, log: seq<Act>, a: Act)
    requires v.log == log + [a]
    ensures StandsAsTold(v) <==> ToldBy(v, a)
  {
  }

  /** Where a VM stands, a visit may act as it does. */
  lemma MayVisit(v: Vm, answered: bool, up: bool)
    requires StandsAsTold(v)
    ensures v.phase == Shutdown ==> MayFollow(v.log, Probed(up), v.hasCallback)
    ensures v.phase == Booting && v.bootDone ==> MayFollow(v.log, Restarting, v.hasCallback)
    ensures v.phase == Running && v.okay ==> MayFollow(v.log, Pinged(answered), v.hasCallback)
    ensures v.phase == Destroying ==> MayFollow(v.log, Destroyed, v.hasCallback)
  {
  }

  /** The VM will never be okay again: its callback failed or is missing, or no thread is left to
      report the boot the watcher waits for. */
  predicate Lost(v: Vm) {
    && !v.okay
    && (|| !v.hasCallback
        || v.phase == Running
        || (v.phase == Restarted && !v.pending)
        || (v.phase == Booting && !v.bootDone && v.threads == []))
  }

  /** The callback has failed: the VM is no longer polled for anything. */
  ghost predicate GivenUp(v: Vm) {
    !v.okay && !v.pending && (v.phase == Restarted || v.phase == Running)
  }

  /** What every step keeps. */
  ghost predicate VmOk(v: Vm) {
    && (v.okay ==> v.live && (v.phase == Running || v.phase == Restarted))
    && (v.phase == Destroying ==> v.live)
    && (v.phase == Shutdown || v.phase == Booting ==> !v.live)
    && (v.pending ==> v.phase == Restarted && !v.live && v.hasCallback)
    && |v.threads| <= 1
    && (v.threads != [] ==> v.phase == Booting && !v.bootDone)
    && HandleAfter(v.log) == (if v.live then Alive else Dead)
    && CalledOncePerRestart(v.log, v.hasCallback)
    && (v.pending <==> v.hasCallback && v.log != [] && v.log[|v.log| - 1] == Restarting)
    && QuietAfterFailure(v.log)
    && (v.log != [] && Failed(v.log[|v.log| - 1]) ==> GivenUp(v))
    && History(v.log, v.hasCallback) && StandsAsTold(v)
  }

  lemma AddedOk(hasCallback: bool)
    ensures VmOk(Added(hasCallback))
  {
  }

  lemma Appended(log: seq<Act>, a: Act, hasCallback: bool)
    requires CalledOncePerRestart(log, hasCallback) && QuietAfterFailure(log)
    requires a.Called? <==> hasCallback && log != [] && log[|log| - 1] == Restarting
    requires log != [] ==> !Failed(log[|log| - 1])
    requires History(log, hasCallback) && MayFollow(log, a, hasCallback)
    ensures var now := log + [a];
            && CalledOncePerRestart(now, hasCallback) && QuietAfterFailure(now) && History(now, hasCallback)
            && now[|now| - 1] == a
            && HandleAfter(now) == match a {
                 case Pinged(_) => if HandleAfter(log) == Alive then Alive else Misused
                 case Destroyed => if HandleAfter(log) == Alive then Dead else Misused
                 case Called(true, _) => if HandleAfter(log) == Dead then Alive else Misused
                 case _ => HandleAfter(log)
               }
  {
    var now := log + [a];
    assert now[..|log|] == log;
    assert forall i | 0 <= i <= |log| :: now[..i] == log[..i];
  }

  /** A VM that is visited for more has not just had its restart noticed, nor its callback failed. */
  lemma NotJustRestarted(v: Vm)
    requires VmOk(v) && !(v.phase == Restarted) && (v.phase == Running ==> v.okay)
    ensures v.log != [] ==> v.log[|v.log| - 1] != Restarting && !Failed(v.log[|v.log| - 1])
  {
    hide CalledOncePerRestart, QuietAfterFailure, HandleAfter, History, MayFollow;
  }

  lemma PollShutdown(v: Vm, alive: bool, up: bool, created: bool)
    requires VmOk(v) && v.phase == Shutdown
    ensures VmOk(Polled(v, alive, up, created))
  {
    hide CalledOncePerRestart, QuietAfterFailure, HandleAfter, History, MayFollow;
    MayVisit(v, alive, up);
    NotJustRestarted(v);
    hide StandsAsTold;
    Appended(v.log, Probed(up), v.hasCallback);
    LastTells(Polled(v, alive, up, created), v.log, Probed(up));
  }

  lemma PollBooting(v: Vm, alive: bool, up: bool, created: bool)
    requires VmOk(v) && v.phase == Booting && v.bootDone
    ensures VmOk(Polled(v, alive, up, created))
  {
    hide CalledOncePerRestart, QuietAfterFailure, HandleAfter, History, MayFollow;
    MayVisit(v, alive, up);
    NotJustRestarted(v);
    hide StandsAsTold;
    Appended(v.log, Restarting, v.hasCallback);
    LastTells(Polled(v, alive, up, created), v.log, Restarting);
  }

  lemma PollAnswered(v: Vm, up: bool, created: bool)
    requires VmOk(v) && v.phase == Running && v.okay
    ensures VmOk(Polled(v, true, up, created))
  {
    hide CalledOncePerRestart, QuietAfterFailure, HandleAfter, History, MayFollow;
    MayVisit(v, true, up);
    NotJustRestarted(v);
    hide StandsAsTold, GivenUp;
    Appended(v.log, Pinged(true), v.hasCallback);
    LastTells(Polled(v, true, up, created), v.log, Pinged(true));
  }

  lemma PollUnanswered(v: Vm, up: bool, created: bool)
    requires VmOk(v) && v.phase == Running && v.okay
    ensures VmOk(Polled(v, false, up, created))
  {
    hide CalledOncePerRestart, QuietAfterFailure, HandleAfter, History, MayFollow;
    MayVisit(v, false, up);
    NotJustRestarted(v);
    hide StandsAsTold, GivenUp;
    Appended(v.log, Pinged(false), v.hasCallback);
    LastTells(Polled(v, false, up, created), v.log, Pinged(false));
  }

  lemma PollDestroying(v: Vm, alive: bool, up: bool, created: bool)
    requires VmOk(v) && v.phase == Destroying
    ensures VmOk(Polled(v, alive, up, created))
  {
    hide CalledOncePerRestart, QuietAfterFailure, HandleAfter, History, MayFollow;
    MayVisit(v, alive, up);
    NotJustRestarted(v);
    hide StandsAsTold;
    Appended(v.log, Destroyed, v.hasCallback);
    LastTells(Polled(v, alive, up, created), v.log, Destroyed);
  }

  lemma PollOk(v: Vm, alive: bool, up: bool, created: bool)
    requires VmOk(v) && !v.pending
    ensures VmOk(Polled(v, alive, up, created))
  {
    if v.phase == Shutdown {
      PollShutdown(v, alive, up, created);
    } else if v.phase == Booting && v.bootDone {
      PollBooting(v, alive, up, created);
    } else if v.phase == Running && v.okay {
      if alive {
        PollAnswered(v, up, created);
      } else {
        PollUnanswered(v, up, created);
      }
    } else if v.phase == Destroying {
      PollDestroying(v, alive, up, created);
    } else if v.phase == Restarted {
      PollRestarted(v, alive, up, created);
    }
  }

  lemma PollRestarted(v: Vm, alive: bool, up: bool, created: bool)
    requires VmOk(v) && !v.pending && v.phase == Restarted
    ensures VmOk(Polled(v, alive, up, created))
  {
    hide CalledOncePerRestart, QuietAfterFailure, HandleAfter, History;
  }

  lemma CallOk(v: Vm, initialised: bool, ok: bool)
    requires VmOk(v) && v.pending && (ok ==> initialised)
    ensures VmOk(CallReturned(v, initialised, ok))
  {
    hide CalledOncePerRestart, QuietAfterFailure, HandleAfter, History;
    Appended(v.log, Called(initialised, ok), v.hasCallback);
  }

  lemma ThreadOk(v: Vm, k: nat, handle: bool)
    requires VmOk(v) && k < |v.threads|
    ensures VmOk(ThreadMoved(v, k, handle))
  {
    hide CalledOncePerRestart, QuietAfterFailure, HandleAfter, History;
    if v.threads[k] == Leaving {
      Appended(v.log, Reported, v.hasCallback);
    }
  }

  /** Every step of the monitor, of the callback and of any boot thread keeps it. */
  lemma NextOk(v: Vm, i: Input)
    requires VmOk(v) && Possible(v, i)
    ensures VmOk(Next(v, i))
  {
    hide CalledOncePerRestart, QuietAfterFailure, HandleAfter, History;
    match i
    case Poll(alive, up, created) => PollOk(v, alive, up, created);
    case Call(initialised, ok) => CallOk(v, initialised, ok);
    case ThreadMoves(k, handle) => ThreadOk(v, k, handle);
  }

  lemma {:induction false} NeverMisused(log: seq<Act>, j: nat)
    requires HandleAfter(log) != Misused && j <= |log|
    ensures HandleAfter(log[..j]) != Misused
    decreases |log|
  {
    if j == |log| {
      assert log[..j] == log;
    } else {
      var init := log[..|log| - 1];
      NeverMisused(init, j);
      assert init[..j] == log[..j];
    }
  }

  predicate Initialised(a: Act) {
    a.Called? && a.initialised
  }

  /** The handle changes from dead to alive only by an initialisation, and back only by a
      destruction. */
  lemma {:induction false} Between(log: seq<Act>, i: nat, j: nat)
    requires HandleAfter(log) != Misused && i <= j <= |log|
    ensures HandleAfter(log[..i]) == Dead && HandleAfter(log[..j]) == Alive ==>
              exists k | i <= k < j :: Initialised(log[k])
    ensures HandleAfter(log[..i]) == Alive && HandleAfter(log[..j]) == Dead ==>
              exists k | i <= k < j :: log[k] == Destroyed
    decreases j
  {
    if i < j {
      var h := j - 1;
      Between(log, i, h);
      NeverMisused(log, j);
      assert log[..j][..h] == log[..h] && log[..j][h] == log[h];
      assert Initialised(log[h]) || log[h] == Destroyed || HandleAfter(log[..j]) == HandleAfter(log[..h]);
    }
  }

  lemma Around(log: seq<Act>, i: nat)
    requires HandleAfter(log) != Misused && i < |log|
    ensures log[i] == Destroyed ==> HandleAfter(log[..i]) == Alive && HandleAfter(log[..i + 1]) == Dead
    ensures Initialised(log[i]) ==> HandleAfter(log[..i]) == Dead && HandleAfter(log[..i + 1]) == Alive
  {
    var n := i + 1;
    NeverMisused(log, n);
    assert log[..n][..i] == log[..i] && log[..n][i] == log[i];
  }

  /** Two destructions have an initialisation between them, and two initialisations a destruction. */
  lemma Alternation(log: seq<Act>, i: nat, j: nat)
    requires HandleAfter(log) != Misused && i < j < |log|
    ensures log[i] == log[j] == Destroyed ==> exists k | i < k < j :: Initialised(log[k])
    ensures Initialised(log[i]) && Initialised(log[j]) ==> exists k | i < k < j :: log[k] == Destroyed
  {
    hide HandleAfter;
    Around(log, i);
    Around(log, j);
    Between(log, i + 1, j);
  }

  // ----- recovery

  /** Once lost, a VM stays lost, and nobody is told again that it is okay. */
  lemma LostForGood(v: Vm, i: Input)
    requires VmOk(v) && Possible(v, i) && Lost(v)
    ensures Lost(Next(v, i)) && !Next(v, i).okay
  {
  }

  /** What the outside does when everything goes well. */
  function Favourable(v: Vm): Input {
    if v.pending then Call(true, true)
    else if v.threads != [] then ThreadMoves(0, true)
    else Poll(true, true, true)
  }

  /** How many favourable steps are left before the VM is okay. */
  function StepsLeft(v: Vm): nat {
    if v.okay then 0
    else match v.phase
      case Destroying => 7
      case Shutdown => 6
      case Booting =>
        if v.threads == [] then 2
        else (match v.threads[0] case Starting => 5 case Waiting => 4 case Leaving => 3)
      case _ => 1
  }

  function RunFavourably(v: Vm, n: nat): Vm
    requires n > 0 ==> VmOk(v)
    decreases n
  {
    if n == 0 then v
    else NextOk(v, Favourable(v)); RunFavourably(Next(v, Favourable(v)), n - 1)
  }

  /** From every state a VM that is not lost comes back within seven favourable steps, and a lost one
      never does: the watcher is stuck exactly in the lost states. */
  lemma {:induction false} Recovers(v: Vm)
    requires VmOk(v)
    ensures StepsLeft(v) <= 7
    ensures !Lost(v) ==> RunFavourably(v, StepsLeft(v)).okay
    ensures Lost(v) ==> forall i | Possible(v, i) :: Lost(Next(v, i))
    decreases StepsLeft(v)
  {
    hide CalledOncePerRestart, QuietAfterFailure, HandleAfter, History;
    if !Lost(v) && !v.okay {
      var w := Next(v, Favourable(v));
      NextOk(v, Favourable(v));
      assert StepsLeft(w) == StepsLeft(v) - 1 && !Lost(w);
      Recovers(w);
    }
  }

  // ----- all VMs

  /** The VMs and whose turn it is with the monitor thread. */
  datatype World = World(vms: seq<Vm>, turn: nat)

  /** The monitor thread visits or calls back for the VM whose turn it is; any boot thread may move. */
  datatype Move = Monitor(i: Input) | Boot(vm: nat, k: nat, handle: bool)

  predicate Allowed(w: World, m: Move) {
    match m
    case Monitor(i) => w.turn < |w.vms| && !i.ThreadMoves? && Possible(w.vms[w.turn], i)
    case Boot(vm, k, handle) => vm < |w.vms| && Possible(w.vms[vm], ThreadMoves(k, handle))
  }

  /** After a visit the next VM has its turn, unless the callback is to be called first. */
  function Moved(w: World, m: Move): World
    requires Allowed(w, m)
  {
    match m
    case Monitor(i) =>
      var v := Next(w.vms[w.turn], i);
      World(w.vms[w.turn := v], if v.pending then w.turn else if w.turn + 1 == |w.vms| then 0 else w.turn + 1)
    case Boot(vm, k, handle) =>
      World(w.vms[vm := Next(w.vms[vm], ThreadMoves(k, handle))], w.turn)
  }

  ghost predicate WorldOk(w: World) {
    && (forall i | 0 <= i < |w.vms| :: VmOk(w.vms[i]))
    && (forall i | 0 <= i < |w.vms| && i != w.turn :: !w.vms[i].pending)
    && (w.vms != [] ==> w.turn < |w.vms|)
  }

  function Run(w: World, ms: seq<Move>): World {
    if ms == [] then w
    else
      var u := Run(w, ms[..|ms| - 1]);
      if Allowed(u, ms[|ms| - 1]) then Moved(u, ms[|ms| - 1]) else u
  }

  function Start(callbacks: seq<bool>): World {
    World(seq(|callbacks|, i requires 0 <= i < |callbacks| => Added(callbacks[i])), 0)
  }

  lemma MovedOk(w: World, m: Move)
    requires WorldOk(w) && Allowed(w, m)
    ensures WorldOk(Moved(w, m))
  {
    hide VmOk;
    match m {
      case Monitor(i) => NextOk(w.vms[w.turn], i);
      case Boot(vm, k, handle) => NextOk(w.vms[vm], ThreadMoves(k, handle));
    }
  }

  lemma {:induction false} RunOk(callbacks: seq<bool>, ms: seq<Move>)
    ensures WorldOk(Run(Start(callbacks), ms))
    ensures |Run(Start(callbacks), ms).vms| == |callbacks|
  {
    if ms == [] {
      forall i | 0 <= i < |callbacks|
        ensures VmOk(Added(callbacks[i]))
      {
        AddedOk(callbacks[i]);
      }
    } else {
      RunOk(callbacks, ms[..|ms| - 1]);
      var u, m := Run(Start(callbacks), ms[..|ms| - 1]), ms[|ms| - 1];
      if Allowed(u, m) {
        MovedOk(u, m);
      }
    }
  }

  /** The first act is a ping. Directly behind an unanswered ping, and only there, the handle is
      destroyed; the VM is probed for only behind a destruction or a probe that did not find it; a restart
      is noticed only behind a boot thread's report, and that comes only behind a probe that found the VM. */
  ghost predicate AsItTurnedOut(log: seq<Act>) {
    && (log != [] ==> log[0].Pinged?)
    && forall x, y | 0 <= x && y == x + 1 && y < |log| ::
         && (log[x] == Pinged(false) <==> log[y] == Destroyed)
         && (log[y].Probed? ==> log[x] == Destroyed || log[x] == Probed(false))
         && (log[y] == Restarting ==> log[x] == Reported)
         && (log[y] == Reported ==> log[x] == Probed(true))
  }

  lemma HistoryTells(log: seq<Act>, hasCallback: bool)
    requires History(log, hasCallback)
    ensures AsItTurnedOut(log)
  {
    if log != [] {
      assert MayFollow(log[..0], log[0], hasCallback);
    }
    forall x, y | 0 <= x && y == x + 1 && y < |log|
      ensures log[x] == Pinged(false) <==> log[y] == Destroyed
      ensures log[y].Probed? ==> log[x] == Destroyed || log[x] == Probed(false)
      ensures log[y] == Restarting ==> log[x] == Reported
      ensures log[y] == Reported ==> log[x] == Probed(true)
    {
      assert MayFollow(log[..y], log[y], hasCallback) && log[..y][x] == log[x];
    }
  }

  /** Over all interleavings: a VM is okay only while its handle is initialised; the handle is
      initialised before it is destroyed and not initialised while the VM is down or booting;
      destructions and initialisations alternate; the callback runs once per restart; one boot thread
      at most is unfinished; and after a failed callback nothing is done about the VM any more. */
  lemma EveryRunIsSafe(callbacks: seq<bool>, ms: seq<Move>, i: nat)
    requires i < |callbacks|
    ensures var w := Run(Start(callbacks), ms);
            i < |w.vms| &&
            var v := w.vms[i];
            && (v.okay ==> v.live)
            && (v.phase == Destroying ==> v.live && !v.okay)
            && (v.phase == Shutdown || v.phase == Booting ==> !v.live && !v.okay)
            && (forall x, y | 0 <= x < y < |v.log| && v.log[x] == v.log[y] == Destroyed ::
                  exists k | x < k < y :: Initialised(v.log[k]))
            && (forall x, y | 0 <= x < y < |v.log| && Initialised(v.log[x]) && Initialised(v.log[y]) ::
                  exists k | x < k < y :: v.log[k] == Destroyed)
            && CalledOncePerRestart(v.log, v.hasCallback)
            && |v.threads| <= 1
            && QuietAfterFailure(v.log)
            && AsItTurnedOut(v.log)
  {
    RunOk(callbacks, ms);
    var v := Run(Start(callbacks), ms).vms[i];
    assert VmOk(v);
    hide Run, HandleAfter, History, AsItTurnedOut;
    HistoryTells(v.log, v.hasCallback);
    forall x, y | 0 <= x < y < |v.log|
      ensures v.log[x] == v.log[y] == Destroyed ==> exists k | x < k < y :: Initialised(v.log[k])
      ensures Initialised(v.log[x]) && Initialised(v.log[y]) ==> exists k | x < k < y :: v.log[k] == Destroyed
    {
      Alternation(v.log, x, y);
    }
  }

  // ----- what pings, probes and threads decide

  /** A running VM that fails to answer is not okay from that visit on, nothing but the monitor can move
      it, and whatever is found at its next visit its handle is destroyed then. */
  lemma UnansweredIsDestroyed(v: Vm, up: bool, created: bool, i: Input)
    requires VmOk(v) && v.phase == Running && v.okay && !v.pending
    ensures var u := Next(v, Poll(false, up, created));
            && !u.okay && u.live
            && (Possible(u, i) ==>
                  && i.Poll? && Next(u, i).phase == Shutdown && !Next(u, i).live && !Next(u, i).okay
                  && Next(u, i).log == v.log + [Pinged(false), Destroyed])
  {
    hide CalledOncePerRestart, QuietAfterFailure, HandleAfter, History;
    assert v.log + [Pinged(false)] + [Destroyed] == v.log + [Pinged(false), Destroyed];
  }

  ghost predicate UpAndOkay(w: World) {
    forall i | 0 <= i < |w.vms| ::
      w.vms[i].phase == Running && w.vms[i].okay && w.vms[i].live && !w.vms[i].pending && w.vms[i].threads == []
  }

  /** While every ping is answered, every VM stays running and okay and keeps its handle. */
  lemma {:induction false} AnsweredStayUp(callbacks: seq<bool>, ms: seq<Move>)
    requires forall m | m in ms && m.Monitor? && m.i.Poll? :: m.i.alive
    ensures UpAndOkay(Run(Start(callbacks), ms))
  {
    if ms != [] {
      var front, m := ms[..|ms| - 1], ms[|ms| - 1];
      AnsweredStayUp(callbacks, front);
      assert m in ms;
    }
  }

  /** No boot has been reported and no restart noticed; no thread has a handle. */
  ghost predicate NoBoot(v: Vm) {
    && !v.pending && v.phase != Restarted && (v.phase == Booting ==> !v.bootDone)
    && (forall t | t in v.threads :: t == Starting)
    && (forall a | a in v.log :: a != Reported && a != Restarting && !a.Called?)
  }

  /** What keeps VMs from booting: either no poll both finds the VM and creates a thread, or no thread
      gets a handle. */
  ghost predicate Prevents(m: Move, threads: bool) {
    if threads then m.Boot? ==> !m.handle else m.Monitor? && m.i.Poll? ==> !(m.i.up && m.i.created)
  }

  ghost predicate NoneBoots(w: World, threads: bool) {
    forall i | 0 <= i < |w.vms| :: NoBoot(w.vms[i]) && (!threads ==> w.vms[i].threads == [])
  }

  lemma NoBootStep(v: Vm, i: Input, threads: bool)
    requires NoBoot(v) && Possible(v, i) && (!threads ==> v.threads == [])
    requires if threads then i.ThreadMoves? ==> !i.handle else i.Poll? ==> !(i.up && i.created)
    ensures NoBoot(Next(v, i)) && (!threads ==> Next(v, i).threads == [])
  {
    match i {
      case Poll(alive, up, created) => NoBootPoll(v, alive, up, created, threads);
      case Call(initialised, ok) =>
      case ThreadMoves(k, handle) =>
        if threads {
          NoBootThread(v, k);
        }
    }
  }

  lemma NoBootThread(v: Vm, k: nat)
    requires NoBoot(v) && k < |v.threads|
    ensures NoBoot(ThreadMoved(v, k, false))
  {
    assert v.threads[k] in v.threads;
    OneGone(v.threads, k);
    var w := ThreadMoved(v, k, false);
    assert w == v.(threads := v.threads[..k] + v.threads[k + 1..]);
    forall t | t in w.threads
      ensures t == Starting
    {
      assert t in v.threads;
    }
  }

  lemma OneGone(ts: seq<Stage>, k: nat)
    requires k < |ts|
    ensures forall t | t in ts[..k] + ts[k + 1..] :: t in ts
  {
  }

  lemma NoBootPoll(v: Vm, alive: bool, up: bool, created: bool, threads: bool)
    requires NoBoot(v) && !v.pending && (!threads ==> v.threads == [])
    requires !threads ==> !(up && created)
    ensures NoBoot(Polled(v, alive, up, created)) && (!threads ==> Polled(v, alive, up, created).threads == [])
  {
  }

  /** As long as no VM that went down is found with a thread to wait for it, or no thread gets a handle, no
      restart is ever noticed and no callback called. */
  lemma {:induction false} NoBootNoRestart(callbacks: seq<bool>, ms: seq<Move>, threads: bool)
    requires forall m | m in ms :: Prevents(m, threads)
    ensures NoneBoots(Run(Start(callbacks), ms), threads)
  {
    if ms != [] {
      hide NoBoot, Next, Possible;
      var front, m := ms[..|ms| - 1], ms[|ms| - 1];
      NoBootNoRestart(callbacks, front, threads);
      assert m in ms;
      var u := Run(Start(callbacks), front);
      if Allowed(u, m) {
        match m {
          case Monitor(i) => NoBootStep(u.vms[u.turn], i, threads);
          case Boot(vm, k, handle) => NoBootStep(u.vms[vm], ThreadMoves(k, handle), threads);
        }
      }
    } else {
      StartNoBoot(callbacks, threads);
    }
  }

  lemma StartNoBoot(callbacks: seq<bool>, threads: bool)
    ensures NoneBoots(Start(callbacks), threads)
  {
  }

  /** A VM lost in a run is lost however the run goes on. */
  lemma {:induction false} LostInEveryRun(callbacks: seq<bool>, ms: seq<Move>, more: seq<Move>, i: nat)
    requires i < |Run(Start(callbacks), ms).vms| && Lost(Run(Start(callbacks), ms).vms[i])
    ensures var w := Run(Start(callbacks), ms + more);
            i < |w.vms| && Lost(w.vms[i]) && !w.vms[i].okay
    decreases |more|
  {
    var all := ms + more;
    RunOk(callbacks, all);
    RunOk(callbacks, ms);
    if more == [] {
      assert all == ms;
    } else {
      var less := more[..|more| - 1];
      LostInEveryRun(callbacks, ms, less, i);
      assert all[..|all| - 1] == ms + less;
      var u, m := Run(Start(callbacks), ms + less), all[|all| - 1];
      RunOk(callbacks, ms + less);
      assert VmOk(u.vms[i]);
      if Allowed(u, m) {
        if m.Monitor? && u.turn == i {
          LostForGood(u.vms[i], m.i);
        } else if m.Boot? && m.vm == i {
          LostForGood(u.vms[i], ThreadMoves(m.k, m.handle));
        }
      }
    }
  }

  // ----- what listeners are told

  /** The answer for VM i as the code gives it, looking at the first VM's flag. */
  predicate Told(w: World, i: nat)
    requires i < |w.vms|
  {
    w.vms[0].okay
  }

  /** A listener told to listen while its handle is dead is not the first VM's, and the two flags
      differ. */
  lemma TruthTold(callbacks: seq<bool>, ms: seq<Move>, i: nat)
    requires i < |callbacks|
    ensures var w := Run(Start(callbacks), ms);
            |w.vms| == |callbacks| &&
            (Told(w, i) && !w.vms[i].live ==> i > 0 && w.vms[0].okay && !w.vms[i].okay)
  {
    RunOk(callbacks, ms);
    assert VmOk(Run(Start(callbacks), ms).vms[i]);
  }

  lemma RunStep(w: World, ms: seq<Move>, m: Move)
    ensures Run(w, ms + [m]) == var u := Run(w, ms); if Allowed(u, m) then Moved(u, m) else u
  {
    assert (ms + [m])[..|ms|] == ms;
  }

  /** All VMs but the i-th are running and okay; the i-th is on its way down. */
  ghost predicate GoingDown(w: World, i: nat) {
    && i < |w.vms| && w.turn < |w.vms|
    && (forall j | 0 <= j < |w.vms| :: !w.vms[j].pending)
    && (forall j | 0 <= j < |w.vms| && j != i :: w.vms[j].phase == Running && w.vms[j].okay)
    && (w.vms[i].phase == Running ==> w.vms[i].okay)
    && (w.vms[i].phase == Running || w.vms[i].phase == Destroying)
  }

  /** Visits left until the i-th VM's handle is destroyed. */
  function VisitsLeft(w: World, i: nat): nat
    requires i < |w.vms| && w.turn < |w.vms|
  {
    (if i >= w.turn then i - w.turn else i + |w.vms| - w.turn)
    + if w.vms[i].phase == Running then |w.vms| + 1 else 0
  }

  /** From there the i-th VM's handle can be destroyed with all others left okay. */
  lemma {:induction false} Down(s: World, ms: seq<Move>, i: nat) returns (all: seq<Move>)
    requires GoingDown(Run(s, ms), i)
    ensures var w := Run(s, all);
            && |w.vms| == |Run(s, ms).vms| && !w.vms[i].live
            && forall j | 0 <= j < |w.vms| && j != i :: w.vms[j].okay
    decreases VisitsLeft(Run(s, ms), i)
  {
    var w := Run(s, ms);
    var m := Monitor(Poll(w.turn != i, true, true));
    hide Run;
    RunStep(s, ms, m);
    if w.turn == i && w.vms[i].phase == Destroying {
      all := ms + [m];
    } else {
      all := Down(s, ms + [m], i);
    }
  }

  /** In a system of any size, the listeners that are never told to listen on a dead handle are exactly
      those of the first VM. */
  lemma SafeListeners(callbacks: seq<bool>, i: nat)
    requires i < |callbacks|
    ensures i == 0 <==> forall ms :: SafelyTold(Run(Start(callbacks), ms), i)
  {
    hide Run;
    if i == 0 {
      forall ms
        ensures SafelyTold(Run(Start(callbacks), ms), i)
      {
        TruthTold(callbacks, ms, i);
      }
    } else {
      RunNothing(Start(callbacks));
      var ms := Down(Start(callbacks), [], i);
      assert !SafelyTold(Run(Start(callbacks), ms), i);
    }
  }

  lemma RunNothing(w: World)
    ensures Run(w, []) == w
  {
  }

  ghost predicate SafelyTold(w: World, i: nat) {
    i < |w.vms| && (Told(w, i) ==> w.vms[i].live)
  }
}
