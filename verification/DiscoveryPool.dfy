/** The worker pool that discovers a configuration's components. */
module DiscoverySections {
  import opened Wrappers
  import opened CatalogTypes
  import opened FamilyCompiler
  import opened CatalogCompiler

  const MAX_PARALLEL_DISCOVERIES := 8

  datatype Cause = ByCaller | ByWorker(error: Error)

  /** `challenged` results carry an error unless authorization is deferred. */
  datatype Slot = Unset | Set(found: Found, challenged: bool)

  datatype Job = Job(env: Environment, servers: seq<Server>, prefixes: seq<string>, deferAuthorization: bool)

  datatype Shared = Shared(next: nat, cause: Option<Cause>, results: seq<Slot>)

  predicate Sized(job: Job, s: Shared) {
    |job.servers| == |job.prefixes| == |s.results| && s.next <= |s.results|
  }

  function Begin(job: Job): Shared {
    Shared(0, None, seq(|job.servers|, _ => Unset))
  }

  /** A worker takes the next component, unless there is none or all is canceled. */
  function Claim(s: Shared): (Shared, Option<nat>) {
    if s.cause.Some? || s.next >= |s.results| then (s, None) else (s.(next := s.next + 1), Some(s.next))
  }

  /** The first cause is kept. */
  function Cancel(s: Shared, cause: Cause): Shared {
    if s.cause.Some? then s else s.(cause := Some(cause))
  }

  /** What a worker makes of a discovery; false ends the worker. */
  function Report(job: Job, s: Shared, i: nat, outcome: Discovered): (Shared, bool)
    requires Sized(job, s) && i < |s.results|
  {
    match outcome
    case Challenged => (s.(results := s.results[i := Set(Found(NOTHING, true), true)]), true)
    case Failed => (Cancel(s, ByWorker(Undiscovered(job.servers[i].name))), false)
    case Listed(None) => (Cancel(s, ByWorker(Undiscovered(job.servers[i].name))), false)
    case Listed(Some(features)) =>
      match CompileComponent(job.env, NO_SECTIONS, Part(job.servers[i], job.prefixes[i], features))
      case Err(e) => (Cancel(s, ByWorker(e)), false)
      case Ok(_) => (s.(results := s.results[i := Set(Found(features, false), false)]), true)
  }

  datatype Result = Canceled(cause: Cause) | Challenges(servers: seq<nat>) | Discoveries(found: seq<Found>)

  /** The components that asked for authorization, in configuration order. */
  function Joined(results: seq<Slot>): seq<nat> {
    if |results| == 0 then []
    else
      var n := |results| - 1;
      var rest := Joined(results[..n]);
      if results[n].Set? && results[n].challenged then rest + [n] else rest
  }

  function FoundIn(slot: Slot): Found {
    if slot.Set? then slot.found else Found(NOTHING, false)
  }

  function AllFound(results: seq<Slot>): seq<Found> {
    seq(|results|, i requires 0 <= i < |results| => FoundIn(results[i]))
  }

  /** What is returned once every worker is done. */
  function Collected(job: Job, s: Shared): Result {
    if s.cause.Some? then Canceled(s.cause.value)
    else if !job.deferAuthorization && Joined(s.results) != [] then Challenges(Joined(s.results))
    else Discoveries(AllFound(s.results))
  }
}

/** The state the workers share. */
module Discovery {
  import opened Wrappers
  import opened CatalogTypes
  import opened CatalogCompiler
  import FamilyCompiler
  import opened DiscoverySections

  class Pool {
    const job: Job
    var next: nat
    var cause: Option<Cause>
    const results: array<Slot>

    ghost predicate Valid()
      reads this, results
    {
      |job.servers| == |job.prefixes| == results.Length && next <= results.Length
    }

    ghost function View(): Shared
      reads this, results
    {
      Shared(next, cause, results[..])
    }

    constructor (job: Job)
      requires |job.servers| == |job.prefixes|
      ensures Valid() && this.job == job && fresh(results) && View() == Begin(job)
    {
      this.job := job;
      next, cause := 0, None;
      results := new Slot[|job.servers|](_ => Unset);
    }

    method Claim() returns (i: Option<nat>)
      requires Valid()
      modifies this
      ensures Valid() && (View(), i) == DiscoverySections.Claim(old(View()))
    {
      if cause.Some? || next >= results.Length {
        return None;
      }
      i := Some(next);
      next := next + 1;
    }

    method Report(i: nat, outcome: Discovered) returns (goesOn: bool)
      requires Valid() && i < results.Length
      modifies this, results
      ensures Valid() && (View(), goesOn) == DiscoverySections.Report(job, old(View()), i, outcome)
    {
      if outcome.Challenged? {
        results[i] := Set(Found(NOTHING, true), true);
        return true;
      }
      var features := if outcome.Listed? then outcome.features else None;
      var error := NothingFound(i);
      if features.Some? {
        var validated := CompileFamilies(job.env, NO_SECTIONS, Part(job.servers[i], job.prefixes[i], features.value));
        if validated.Ok? {
          results[i] := Set(Found(features.value, false), false);
          return true;
        }
        error := ByWorker(validated.error);
      }
      if cause.None? {
        cause := Some(error);
      }
      return false;
    }

    function NothingFound(i: nat): Cause
      requires i < |job.servers|
    {
      ByWorker(FamilyCompiler.Undiscovered(job.servers[i].name))
    }
  }
}
