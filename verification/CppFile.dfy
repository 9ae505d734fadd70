/** The state that `CppFile` guards with its mutex, one function per lock region, and the class
    whose methods perform those regions in place. */
module CppFiles {
  import opened Options

  // Preambles, ASTs and compile commands are opaque; only their diagnostics are looked at.
  datatype Preamble = Preamble(id: nat, diags: seq<nat>)
  datatype Ast = Ast(id: nat, diags: seq<nat>)
  datatype Command = Command(id: nat)

  /** The shared state of one std::promise/std::shared_future pair. `setter` records the number of
      the request whose closure called set_value; 0 stands for the constructor. */
  datatype Promise<T> = Pending | Fulfilled(value: T, setter: nat)

  /** `preambles` and `asts` list every promise ever created for the file; the last of each is the
      one the fields PreamblePromise/PreambleFuture and ASTPromise/ASTFuture refer to, the earlier
      ones live on in futures handed out by getPreamble() and getAST(). `faulted` records that an
      assertion of ~RebuildGuard failed or that set_value was called on a fulfilled promise. */
  datatype FileState = FileState(
    rebuildCounter: nat,
    rebuildInProgress: bool,
    lastCommand: Option<Command>,
    latestAvailablePreamble: Option<Preamble>,
    preambles: seq<Promise<Option<Preamble>>>,
    asts: seq<Promise<Option<Ast>>>,
    faulted: bool)
  {
    predicate Shaped() { |preambles| > 0 && |asts| > 0 }

    function CurrentPreamble(): Promise<Option<Preamble>> requires Shaped() { preambles[|preambles| - 1] }

    function CurrentAst(): Promise<Option<Ast>> requires Shaped() { asts[|asts| - 1] }
  }

  function Created(): FileState {
    FileState(0, false, None, None, [Fulfilled(None, 0)], [Fulfilled(None, 0)], false)
  }

  /** A promise is replaced only when its future is ready. */
  function Renew<T>(ps: seq<Promise<T>>): seq<Promise<T>>
    requires |ps| > 0
  {
    if ps[|ps| - 1].Fulfilled? then ps + [Pending] else ps
  }

  function Settle<T>(ps: seq<Promise<T>>, value: T, setter: nat): seq<Promise<T>>
    requires |ps| > 0
  {
    ps[|ps| - 1 := Fulfilled(value, setter)]
  }

  /** The lock region of deferRebuild (with a command) and of deferCancelRebuild (without). */
  function Registered(f: FileState, command: Option<Command>): FileState
    requires f.Shaped()
  {
    f.(rebuildCounter := f.rebuildCounter + 1,
       preambles := Renew(f.preambles),
       asts := Renew(f.asts),
       lastCommand := if command.Some? then command else f.lastCommand)
  }

  /** What a closure finds when it holds the mutex and evaluates its wait predicate. */
  datatype Verdict = Superseded | Blocked | Admitted

  function Judge(f: FileState, request: nat): Verdict {
    if f.rebuildCounter != request then Superseded
    else if f.rebuildInProgress then Blocked
    else Admitted
  }

  function Entered(f: FileState): FileState {
    f.(rebuildInProgress := true)
  }

  function Nulled(f: FileState, request: nat): FileState
    requires f.Shaped()
  {
    f.(preambles := Settle(f.preambles, None, request),
       asts := Settle(f.asts, None, request),
       faulted := f.faulted || f.CurrentPreamble().Fulfilled? || f.CurrentAst().Fulfilled?)
  }

  function PreamblePublished(f: FileState, request: nat, preamble: Option<Preamble>): FileState
    requires f.Shaped()
  {
    var g := f.(latestAvailablePreamble := preamble);
    if f.rebuildCounter != request then g
    else g.(preambles := Settle(f.preambles, preamble, request),
            faulted := f.faulted || f.CurrentPreamble().Fulfilled?)
  }

  function AstPublished(f: FileState, request: nat, ast: Option<Ast>): FileState
    requires f.Shaped()
  {
    if f.rebuildCounter != request then f
    else f.(asts := Settle(f.asts, ast, request), faulted := f.faulted || f.CurrentAst().Fulfilled?)
  }

  /** The assertions of ~RebuildGuard. */
  predicate GuardAssertions(f: FileState, request: nat)
    requires f.Shaped()
  {
    && f.rebuildInProgress
    && (f.rebuildCounter == request ==> f.CurrentAst().Fulfilled? && f.CurrentPreamble().Fulfilled?)
    && (f.rebuildCounter != request ==> f.CurrentAst().Pending? && f.CurrentPreamble().Pending?)
  }

  function Left(f: FileState, request: nat): FileState
    requires f.Shaped()
  {
    f.(rebuildInProgress := false, faulted := f.faulted || !GuardAssertions(f, request))
  }

  /** The diagnostics a rebuild returns: none of its own when no AST could be built. */
  function ReportedDiags(preamble: Option<Preamble>, ast: Option<Ast>): seq<nat> {
    if ast.None? then [] else (if preamble.Some? then preamble.value.diags else []) + ast.value.diags
  }

  /** CppFile's mutable fields. Every method is one region executed with `Mutex` held. */
  class CppFile {
    var rebuildCounter: nat
    var rebuildInProgress: bool
    var lastCommand: Option<Command>
    var latestAvailablePreamble: Option<Preamble>
    var preambles: seq<Promise<Option<Preamble>>>
    var asts: seq<Promise<Option<Ast>>>
    var faulted: bool

    ghost function State(): FileState
      reads this
    {
      FileState(rebuildCounter, rebuildInProgress, lastCommand, latestAvailablePreamble, preambles, asts, faulted)
    }

    ghost predicate Valid()
      reads this
    {
      State().Shaped()
    }

    constructor ()
      ensures Valid() && State() == Created()
    {
      rebuildCounter, rebuildInProgress, lastCommand := 0, false, None;
      latestAvailablePreamble := None;
      preambles, asts := [Fulfilled(None, 0)], [Fulfilled(None, 0)];
      faulted := false;
    }

    method RenewReadyPromises()
      requires Valid()
      modifies this`preambles, this`asts
      ensures preambles == Renew(old(preambles)) && asts == Renew(old(asts))
    {
      if preambles[|preambles| - 1].Fulfilled? {
        preambles := preambles + [Pending];
      }
      if asts[|asts| - 1].Fulfilled? {
        asts := asts + [Pending];
      }
    }

    method DeferRebuild(command: Command) returns (request: nat, oldPreamble: Option<Preamble>)
      requires Valid()
      modifies this
      ensures Valid() && State() == Registered(old(State()), Some(command))
      ensures request == rebuildCounter && oldPreamble == latestAvailablePreamble
    {
      rebuildCounter := rebuildCounter + 1;
      request := rebuildCounter;
      oldPreamble := latestAvailablePreamble;
      RenewReadyPromises();
      lastCommand := Some(command);
    }

    method DeferCancelRebuild() returns (request: nat)
      requires Valid()
      modifies this
      ensures Valid() && State() == Registered(old(State()), None)
      ensures request == rebuildCounter
    {
      rebuildCounter := rebuildCounter + 1;
      request := rebuildCounter;
      RenewReadyPromises();
    }

    /** The guard's constructor: leaves the lock early when superseded, sleeps when blocked. */
    method EnterGuard(request: nat) returns (verdict: Verdict)
      requires Valid()
      modifies this`rebuildInProgress
      ensures Valid() && verdict == Judge(old(State()), request)
      ensures State() == if verdict.Admitted? then Entered(old(State())) else old(State())
    {
      if rebuildCounter != request {
        return Superseded;
      }
      if !(!rebuildInProgress || rebuildCounter != request) {
        return Blocked;
      }
      rebuildInProgress := true;
      return Admitted;
    }

    /** set_value on the current preamble promise. */
    method SetPreamble(value: Option<Preamble>, request: nat)
      requires Valid()
      modifies this`preambles, this`faulted
      ensures Valid() && preambles == Settle(old(preambles), value, request)
      ensures faulted == (old(faulted) || old(State().CurrentPreamble().Fulfilled?))
    {
      faulted := faulted || preambles[|preambles| - 1].Fulfilled?;
      preambles := preambles[|preambles| - 1 := Fulfilled(value, request)];
    }

    /** set_value on the current AST promise. */
    method SetAst(value: Option<Ast>, request: nat)
      requires Valid()
      modifies this`asts, this`faulted
      ensures Valid() && asts == Settle(old(asts), value, request)
      ensures faulted == (old(faulted) || old(State().CurrentAst().Fulfilled?))
    {
      faulted := faulted || asts[|asts| - 1].Fulfilled?;
      asts := asts[|asts| - 1 := Fulfilled(value, request)];
    }

    /** The closure of deferCancelRebuild: waits first, then checks whether it was superseded. */
    method FinishCancel(request: nat) returns (verdict: Verdict)
      requires Valid()
      modifies this
      ensures Valid() && verdict == Judge(old(State()), request)
      ensures State() == if verdict.Admitted? then Nulled(old(State()), request) else old(State())
    {
      if !(!rebuildInProgress || rebuildCounter != request) {
        return Blocked;
      }
      if rebuildCounter != request {
        return Superseded;
      }
      SetPreamble(None, request);
      SetAst(None, request);
      return Admitted;
    }

    method PublishPreamble(request: nat, preamble: Option<Preamble>) returns (current: bool)
      requires Valid()
      modifies this
      ensures Valid() && State() == PreamblePublished(old(State()), request, preamble)
      ensures current == (old(rebuildCounter) == request)
    {
      latestAvailablePreamble := preamble;
      if request != rebuildCounter {
        return false;
      }
      SetPreamble(preamble, request);
      return true;
    }

    method PublishAst(request: nat, ast: Option<Ast>)
      requires Valid()
      modifies this
      ensures Valid() && State() == AstPublished(old(State()), request, ast)
    {
      if request != rebuildCounter {
        return;
      }
      SetAst(ast, request);
    }

    /** The guard's destructor; a failing assertion is recorded, not assumed away. */
    method LeaveGuard(request: nat)
      requires Valid()
      modifies this
      ensures Valid() && State() == Left(old(State()), request)
    {
      var astReady, preambleReady := asts[|asts| - 1].Fulfilled?, preambles[|preambles| - 1].Fulfilled?;
      if !rebuildInProgress {
        faulted := true;
      }
      rebuildInProgress := false;
      if rebuildCounter == request {
        faulted := faulted || !astReady || !preambleReady;
      } else {
        faulted := faulted || astReady || preambleReady;
      }
    }
  }
}
