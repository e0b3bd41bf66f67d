/** internal/container/retry.go, postgres.go and network.go: bounded retries, and what they leave running. */
module Containers {

  /** The context of a run: once done, always done. */
  class Context {
    var done: bool

    constructor ()
      ensures !done
    {
      done := false;
    }

    method Poll() returns (d: bool)
      modifies this
      ensures d == done && (old(done) ==> done)
    {
      var cancelled: bool := *;
      done := done || cancelled;
      d := done;
    }
  }

  /** The Docker daemon: what is alive, which terminations it refused, and which network removals it was
      asked for. Ids are never reused. */
  class Docker {
    var live: set<nat>
    var refused: set<nat>
    var networks: set<nat>
    var removals: seq<nat>
    var next: nat
    /** How many requests have failed. */
    ghost var failures: nat

    ghost predicate Valid()
      reads this
    {
      (forall id | id in live :: id < next) && (forall id | id in refused :: id < next) &&
      (forall id | id in networks :: id < next) && (forall id | id in removals :: id < next)
    }

    constructor ()
      ensures Valid() && live == refused == networks == {} && removals == [] && failures == 0
    {
      live, refused, networks, removals, next, failures := {}, {}, {}, [], 0, 0;
    }

    ghost method Note(ok: bool)
      modifies this`failures
      ensures failures == old(failures) + (if ok then 0 else 1)
    {
      failures := failures + (if ok then 0 else 1);
    }

    /** Asking a container for its host or its port. */
    method Inspect() returns (ok: bool)
      modifies this`failures
      ensures failures == old(failures) + (if ok then 0 else 1)
    {
      ok := *;
      Note(ok);
    }

    /** Creating and starting a container: it may fail, and even then hand back a container. */
    method Create() returns (ok: bool, handle: set<nat>)
      requires Valid()
      modifies this`live, this`next, this`failures
      ensures Valid() && next >= old(next)
      ensures live == old(live) + handle && handle !! old(live) + refused
      ensures |handle| <= 1 && (ok ==> |handle| == 1)
      ensures failures == old(failures) + (if ok then 0 else 1)
    {
      ok := *;
      Note(ok);
      var partial: bool := *;
      handle := {};
      if ok || partial {
        handle := {next};
        live := live + {next};
        next := next + 1;
      }
    }

    /** Terminating a container; a refused termination leaves it alive. */
    method Terminate(id: nat) returns (ok: bool)
      requires Valid() && id < next
      modifies this`live, this`refused, this`failures
      ensures Valid() && failures == old(failures) + (if ok then 0 else 1)
      ensures live == (if ok then old(live) - {id} else old(live))
      ensures refused == (if ok then old(refused) else old(refused) + {id})
    {
      ok := *;
      Note(ok);
      if ok {
        live := live - {id};
      } else {
        refused := refused + {id};
      }
    }

    method CreateNetwork() returns (ok: bool, id: nat)
      requires Valid()
      modifies this`networks, this`next, this`failures
      ensures Valid() && next >= old(next) && failures == old(failures) + (if ok then 0 else 1)
      ensures networks == (if ok then old(networks) + {id} else old(networks))
      ensures ok ==> id !in old(networks) && id !in removals && id < next
    {
      ok := *;
      Note(ok);
      id := next;
      if ok {
        networks := networks + {id};
        next := next + 1;
      }
    }

    method RemoveNetwork(id: nat) returns (ok: bool)
      requires Valid() && id < next
      modifies this`networks, this`removals, this`failures
      ensures Valid() && removals == old(removals) + [id] && failures == old(failures) + (if ok then 0 else 1)
      ensures networks == (if ok then old(networks) - {id} else old(networks))
    {
      ok := *;
      Note(ok);
      removals := removals + [id];
      if ok {
        networks := networks - {id};
      }
    }
  }

  datatype Holding = Nothing | Holding(id: nat)

  /** PostgresProvider: its one field is the container it holds. */
  class Provider {
    var container: Holding

    constructor ()
      ensures container == Nothing
    {
      container := Nothing;
    }
  }

  /** The closure that removes a network, with the flag it captures. */
  class NetworkCleanup {
    const id: nat
    var removed: bool

    constructor (id: nat)
      ensures this.id == id && !removed
    {
      this.id := id;
      removed := false;
    }

    /** Removal is asked for on the first call only. */
    method Run(d: Docker) returns (ok: bool)
      requires d.Valid() && id < d.next
      modifies this, d`networks, d`removals, d`failures
      ensures d.Valid() && removed && d.failures == old(d.failures) + (if ok then 0 else 1)
      ensures d.removals == (if old(removed) then old(d.removals) else old(d.removals) + [id])
      ensures old(removed) ==> ok && d.networks == old(d.networks)
      ensures !old(removed) ==> d.networks == (if ok then old(d.networks) - {id} else old(d.networks))
    {
      if removed {
        return true;
      }
      removed := true;
      ok := d.RemoveNetwork(id);
    }
  }

  /** The two things that are retried. */
  datatype Task = StartPostgres | CreateNetwork

  datatype RetryResult = Done | ContextDone | LastFailed

  /** What a retried function works on, and what it captures. */
  class Host {
    const docker: Docker
    const provider: Provider
    var cleanup: NetworkCleanup?
    /** The outcome of every attempt so far. */
    var outcomes: seq<bool>

    constructor (docker: Docker, provider: Provider)
      ensures this.docker == docker && this.provider == provider && cleanup == null && outcomes == []
    {
      this.docker, this.provider, cleanup, outcomes := docker, provider, null, [];
    }

    /** One call of the retried function, as the retry loop sees it. */
    method Attempt(task: Task) returns (ok: bool)
      requires docker.Valid()
      modifies docker, provider, this
      ensures docker.Valid() && docker.next >= old(docker.next) && outcomes == old(outcomes) + [ok]
      ensures docker.failures >= old(docker.failures) && (ok <==> docker.failures == old(docker.failures))
      ensures task == StartPostgres ==>
        cleanup == old(cleanup) && docker.networks == old(docker.networks) && docker.removals == old(docker.removals) &&
        Started(ok, old(docker.live), old(docker.refused), old(provider.container),
                docker.live, docker.refused, provider.container)
      ensures task == CreateNetwork ==>
        docker.live == old(docker.live) && docker.refused == old(docker.refused) &&
        provider.container == old(provider.container) && docker.removals == old(docker.removals) &&
        (!ok ==> docker.networks == old(docker.networks)) &&
        (ok ==> cleanup != null && fresh(cleanup) && !cleanup.removed && cleanup.id < docker.next &&
                cleanup.id !in docker.removals && cleanup.id !in old(docker.networks) &&
                docker.networks == old(docker.networks) + {cleanup.id})
    {
      match task {
        case StartPostgres =>
          ok := StartOnce();
        case CreateNetwork =>
          var id;
          ok, id := docker.CreateNetwork();
          if ok {
            cleanup := new NetworkCleanup(id);
          }
      }
      outcomes := outcomes + [ok];
    }

    /** startOnce: one attempt, which terminates what it created unless it hands it to the provider. */
    method StartOnce() returns (ok: bool)
      requires docker.Valid()
      modifies docker`live, docker`refused, docker`next, docker`failures, provider
      ensures docker.Valid() && docker.next >= old(docker.next)
      ensures docker.failures >= old(docker.failures) && (ok <==> docker.failures == old(docker.failures))
      ensures Started(ok, old(docker.live), old(docker.refused), old(provider.container),
                      docker.live, docker.refused, provider.container)
    {
      var created, handle := docker.Create();
      if !created {
        if handle != {} {
          var c :| c in handle;
          OnlyHandle(handle, c);
          var terminated := docker.Terminate(c);
        }
        return false;
      }
      var c :| c in handle;
      OnlyHandle(handle, c);
      var hostKnown := docker.Inspect();
      if !hostKnown {
        var terminated := docker.Terminate(c);
        return false;
      }
      var portKnown := docker.Inspect();
      if !portKnown {
        var terminated := docker.Terminate(c);
        return false;
      }
      provider.container := Holding(c);
      ok := true;
    }
  }

  lemma {:induction false} OnlyHandle(handle: set<nat>, c: nat)
    requires |handle| <= 1 && c in handle
    ensures handle == {c}
  {
    assert |handle - {c}| == 0;
  }

  /** From the first to the second state nothing came alive but containers whose termination was refused,
      and nothing died. */
  ghost predicate NoneLeft(live: set<nat>, refused: set<nat>, live': set<nat>, refused': set<nat>) {
    live <= live' && refused <= refused' && live' <= live + (refused' - refused)
  }

  /** The effect of starting: on success exactly the container the provider now holds came alive, besides
      refused terminations; on failure none, and the provider holds what it held. */
  ghost predicate Started(
      ok: bool, live: set<nat>, refused: set<nat>, held: Holding, live': set<nat>, refused': set<nat>,
      held': Holding) {
    if ok then
      held'.Holding? && held'.id in live' && held'.id !in live && held'.id !in refused' &&
      NoneLeft(live, refused, live' - {held'.id}, refused')
    else
      held' == held && NoneLeft(live, refused, live', refused')
  }

  lemma {:induction false} StartedTrans(
      live: set<nat>, refused: set<nat>, mid: set<nat>, refusedMid: set<nat>, held: Holding, ok: bool, live': set<nat>,
      refused': set<nat>, held': Holding)
    requires Started(false, live, refused, held, mid, refusedMid, held)
    requires Started(ok, mid, refusedMid, held, live', refused', held')
    ensures Started(ok, live, refused, held, live', refused', held')
  {
  }

  /** What the retry loop promises about the outcomes of its attempts. */
  ghost predicate RetryOutcomes(attempts: int, r: RetryResult, tried: seq<bool>) {
    |tried| <= (if attempts <= 0 then 1 else attempts) &&
    (forall i :: 0 <= i < |tried| - 1 ==> !tried[i]) &&
    (r == Done <==> tried != [] && tried[|tried| - 1]) &&
    (r == LastFailed ==> |tried| == if attempts <= 0 then 1 else attempts) &&
    (r == ContextDone ==> |tried| < if attempts <= 0 then 1 else attempts)
  }

  /** RetryDo. */
  method RetryDo(ctx: Context, h: Host, attempts: int, backoff: int, task: Task)
    returns (r: RetryResult, ghost tried: seq<bool>)
    requires h.docker.Valid()
    modifies ctx, h, h.docker, h.provider
    ensures h.docker.Valid() && h.outcomes == old(h.outcomes) + tried && RetryOutcomes(attempts, r, tried)
    ensures h.docker.next >= old(h.docker.next)
    ensures old(ctx.done) ==> r == ContextDone && tried == []
    ensures r == ContextDone ==> ctx.done
    ensures h.docker.failures >= old(h.docker.failures) + |tried| - (if r == Done then 1 else 0)
    ensures r == Done && |tried| == 1 ==> h.docker.failures == old(h.docker.failures)
    ensures task == StartPostgres ==>
      h.docker.networks == old(h.docker.networks) && h.docker.removals == old(h.docker.removals) &&
      Started(r == Done, old(h.docker.live), old(h.docker.refused), old(h.provider.container),
              h.docker.live, h.docker.refused, h.provider.container)
    ensures task == CreateNetwork ==>
      h.docker.live == old(h.docker.live) && h.docker.refused == old(h.docker.refused) &&
      h.provider.container == old(h.provider.container) && h.docker.removals == old(h.docker.removals) &&
      (r != Done ==> h.docker.networks == old(h.docker.networks)) &&
      (r == Done ==> h.cleanup != null && fresh(h.cleanup) && !h.cleanup.removed && h.cleanup.id < h.docker.next &&
                     h.cleanup.id !in h.docker.removals && h.cleanup.id !in old(h.docker.networks) &&
                     h.docker.networks == old(h.docker.networks) + {h.cleanup.id})
  {
    hide Started;
    var n := if attempts <= 0 then 1 else attempts;
    tried := [];
    NothingStarted(h.docker.live, h.docker.refused, h.provider.container);
    for i := 0 to n
      invariant h.docker.Valid() && h.docker.next >= old(h.docker.next)
      invariant |tried| == i && (forall k :: 0 <= k < i ==> !tried[k])
      invariant h.docker.failures >= old(h.docker.failures) + i
      invariant i == 0 ==> h.docker.failures == old(h.docker.failures)
      invariant h.outcomes == old(h.outcomes) + tried && (old(ctx.done) ==> i == 0 && ctx.done)
      invariant h.docker.removals == old(h.docker.removals) && h.docker.networks == old(h.docker.networks)
      invariant h.provider.container == old(h.provider.container)
      invariant task == StartPostgres ==>
        Started(false, old(h.docker.live), old(h.docker.refused), h.provider.container,
                h.docker.live, h.docker.refused, h.provider.container)
      invariant task == CreateNetwork ==>
        h.docker.live == old(h.docker.live) && h.docker.refused == old(h.docker.refused)
    {
      var done := ctx.Poll();
      if done {
        return ContextDone, tried;
      }
      ghost var live, refused, held := h.docker.live, h.docker.refused, h.provider.container;
      var ok := h.Attempt(task);
      tried := tried + [ok];
      if task == StartPostgres {
        StartedTrans(old(h.docker.live), old(h.docker.refused), live, refused, held,
                     ok, h.docker.live, h.docker.refused, h.provider.container);
        FailedKeepsHeld(old(h.docker.live), old(h.docker.refused), held,
                        h.docker.live, h.docker.refused, h.provider.container, ok);
      }
      if ok {
        return Done, tried;
      }
      if i < n - 1 && backoff > 0 {
        done := ctx.Poll();
        if done {
          return ContextDone, tried;
        }
      }
    }
    r := LastFailed;
  }

  lemma {:induction false} NothingStarted(live: set<nat>, refused: set<nat>, held: Holding)
    ensures Started(false, live, refused, held, live, refused, held)
  {
  }

  lemma {:induction false} FailedKeepsHeld(
      live: set<nat>, refused: set<nat>, held: Holding, live': set<nat>, refused': set<nat>, held': Holding, ok: bool)
    requires Started(ok, live, refused, held, live', refused', held')
    ensures !ok ==> held' == held
  {
  }

  /** The last three attempts have failed. */
  ghost predicate GaveUp(outcomes: seq<bool>) {
    |outcomes| >= 3 && forall i :: |outcomes| - 3 <= i < |outcomes| ==> !outcomes[i]
  }

  const START_ATTEMPTS := 3

  /** PostgresProvider.Start: at most three attempts. If Docker refused no termination, a failed start
      leaves no container and a successful one exactly the held one. */
  method Start(ctx: Context, h: Host) returns (ok: bool, ghost tried: seq<bool>)
    requires h.docker.Valid()
    modifies ctx, h, h.docker, h.provider
    ensures h.docker.Valid() && |tried| <= 3 && h.outcomes == old(h.outcomes) + tried
    ensures h.docker.next >= old(h.docker.next)
    ensures !ok ==> ctx.done || (h.docker.failures >= old(h.docker.failures) + 3 && GaveUp(h.outcomes))
    ensures h.docker.failures >= old(h.docker.failures)
    ensures ok && |tried| == 1 ==> h.docker.failures == old(h.docker.failures)
    ensures h.docker.networks == old(h.docker.networks) && h.docker.removals == old(h.docker.removals)
    ensures Started(ok, old(h.docker.live), old(h.docker.refused), old(h.provider.container),
                    h.docker.live, h.docker.refused, h.provider.container)
    ensures h.docker.refused == old(h.docker.refused) && !ok ==> h.docker.live == old(h.docker.live)
    ensures h.docker.refused == old(h.docker.refused) && ok ==>
      h.provider.container.Holding? && h.docker.live == old(h.docker.live) + {h.provider.container.id}
  {
    var r;
    r, tried := RetryDo(ctx, h, START_ATTEMPTS, 1, StartPostgres);
    ok := r == Done;
  }

  /** PostgresProvider.Stop: nothing held, nothing done; a refused termination keeps the handle. */
  method Stop(h: Host) returns (ok: bool)
    requires h.docker.Valid() && (h.provider.container.Holding? ==> h.provider.container.id < h.docker.next)
    modifies h.docker`live, h.docker`refused, h.docker`failures, h.provider
    ensures h.docker.Valid() && h.docker.failures == old(h.docker.failures) + (if ok then 0 else 1)
    ensures old(h.provider.container) == Nothing ==>
      ok && h.docker.live == old(h.docker.live) && h.docker.refused == old(h.docker.refused)
    ensures ok ==> h.provider.container == Nothing
    ensures !ok ==>
      h.provider.container == old(h.provider.container) && h.provider.container.Holding? &&
      h.docker.live == old(h.docker.live) && h.docker.refused == old(h.docker.refused) + {h.provider.container.id}
    ensures ok && old(h.provider.container).Holding? ==>
      h.docker.live == old(h.docker.live) - {old(h.provider.container).id} && h.docker.refused == old(h.docker.refused)
  {
    match h.provider.container
    case Nothing =>
      ok := true;
    case Holding(id) =>
      ok := h.docker.Terminate(id);
      if ok {
        h.provider.container := Nothing;
      }
  }

  /** Starting and then stopping twice: when Docker refuses no termination, nothing is alive that was not alive
      before, on either path; and a second Stop after a successful one changes nothing. `live` and `refused` are
      as the first Stop left them. */
  method StartThenStop(ctx: Context, h: Host)
    returns (started: bool, stopped: bool, again: bool, ghost live: set<nat>, ghost refused: set<nat>)
    requires h.docker.Valid() && h.provider.container == Nothing
    modifies ctx, h, h.docker, h.provider
    ensures h.docker.Valid()
    ensures stopped ==> again && h.docker.live == live && h.docker.refused == refused && h.provider.container == Nothing
    ensures h.docker.refused == old(h.docker.refused) ==> stopped && h.docker.live == old(h.docker.live)
    ensures !started ==> stopped
    ensures !stopped && !again ==> h.provider.container.Holding? && h.provider.container.id in h.docker.live
  {
    ghost var tried;
    started, tried := Start(ctx, h);
    stopped := Stop(h);
    live, refused := h.docker.live, h.docker.refused;
    again := Stop(h);
  }

  const NETWORK_ATTEMPTS := 3

  /** NewNetworkWithCreator: on success one network and one cleanup that has not run; otherwise none. */
  method NewNetwork(ctx: Context, h: Host) returns (cleanup: NetworkCleanup?, ghost tried: seq<bool>)
    requires h.docker.Valid()
    modifies ctx, h, h.docker, h.provider
    ensures h.docker.Valid() && |tried| <= 3 && h.docker.removals == old(h.docker.removals)
    ensures h.docker.next >= old(h.docker.next)
    ensures h.docker.live == old(h.docker.live) && h.docker.refused == old(h.docker.refused)
    ensures h.provider.container == old(h.provider.container)
    ensures cleanup == null ==> ctx.done || (h.docker.failures >= old(h.docker.failures) + 3 && GaveUp(h.outcomes))
    ensures h.docker.failures >= old(h.docker.failures)
    ensures cleanup == null ==> h.docker.networks == old(h.docker.networks)
    ensures cleanup != null ==>
      fresh(cleanup) && !cleanup.removed && cleanup.id < h.docker.next && cleanup.id !in h.docker.removals &&
      cleanup.id !in old(h.docker.networks) && h.docker.networks == old(h.docker.networks) + {cleanup.id}
  {
    var r;
    r, tried := RetryDo(ctx, h, NETWORK_ATTEMPTS, 1, CreateNetwork);
    cleanup := if r == Done then h.cleanup else null;
  }

  /** However often the cleanup is called, the network's removal is asked for once. */
  method CleanupManyTimes(d: Docker, c: NetworkCleanup, times: nat)
    requires d.Valid() && c.id < d.next && !c.removed && c.id !in d.removals
    modifies c, d`networks, d`removals, d`failures
    ensures d.removals == if times == 0 then old(d.removals) else old(d.removals) + [c.id]
  {
    for i := 0 to times
      invariant d.Valid() && (c.removed <==> i > 0)
      invariant d.removals == if i == 0 then old(d.removals) else old(d.removals) + [c.id]
    {
      var ok := c.Run(d);
    }
  }
}
