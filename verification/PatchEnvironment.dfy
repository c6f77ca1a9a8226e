/** What a Windows patch run cannot choose: the stop flag, the run's time limit, the
    clock and every backend answer. Each call lets time pass and answers arbitrarily, so
    what is proved of a run holds for all answers, stop points and expiries. The trace
    records the calls. */
module PatchEnvironment {
  import opened Options
  import opened WindowsPatch
  import opened PatchTrace

  class Environment {
    var stopFlag: bool
    var runExpired: bool
    var clock: int
    ghost var trace: seq<Event>

    constructor ()
      ensures trace == []
    {
      stopFlag, runExpired, clock, trace := false, false, 0, [];
    }

    /** A stop request and a passed limit are never taken back. */
    twostate predicate Passed()
      reads this
    {
      (old(stopFlag) ==> stopFlag) && (old(runExpired) ==> runExpired) && old(clock) <= clock
    }

    method Elapse()
      modifies this`stopFlag, this`runExpired, this`clock
      ensures Passed()
    {
      var stop: bool := *;
      var expire: bool := *;
      var time: int := *;
      stopFlag, runExpired := stopFlag || stop, runExpired || expire;
      if time > clock {
        clock := time;
      }
    }

    method Stopped() returns (b: bool)
      modifies this
      ensures Passed() && trace == old(trace) && b == stopFlag
    {
      Elapse();
      b := stopFlag;
    }

    method Expired() returns (b: bool)
      modifies this
      ensures Passed() && trace == old(trace) && b == runExpired
    {
      Elapse();
      b := runExpired;
    }

    method Now() returns (t: int)
      modifies this
      ensures Passed() && trace == old(trace) && t == clock
    {
      Elapse();
      t := clock;
    }

    /** Waits, unless the stop context ends first. */
    method Wait(seconds: nat) returns (waited: bool)
      modifies this
      ensures Passed() && trace == old(trace)
      ensures waited ==> old(clock) + seconds <= clock
    {
      Elapse();
      waited := *;
      if waited {
        clock := clock + seconds;
      }
    }

    method RebootRequired() returns (b: bool)
      modifies this
      ensures Passed() && trace == old(trace) + [RebootAsked(b)]
    {
      Elapse();
      b := *;
      trace := trace + [RebootAsked(b)];
    }

    /** timedOut says whether the search's own limit passed. */
    method Scan() returns (a: ScanAnswer, timedOut: bool)
      modifies this
      ensures Passed() && trace == old(trace) + [Scanned(a)]
    {
      Elapse();
      a, timedOut := *, *;
      trace := trace + [Scanned(a)];
    }

    method Download(ids: seq<string>) returns (a: DownloadAnswer, timedOut: bool)
      modifies this
      ensures Passed() && trace == old(trace) + [Downloaded(ids, a)]
    {
      Elapse();
      a, timedOut := *, *;
      trace := trace + [Downloaded(ids, a)];
    }

    /** An install runs under the run's limit only, so a stop never ends it. */
    method Install(id: string) returns (a: InstallAnswer)
      modifies this
      ensures Passed() && trace == old(trace) + [InstallCall(id, a)]
    {
      Elapse();
      a := *;
      trace := trace + [InstallCall(id, a)];
    }

    method Status(id: string) returns (a: StatusAnswer)
      modifies this
      ensures Passed() && trace == old(trace) + [StatusCall(id, a)]
    {
      Elapse();
      a := *;
      trace := trace + [StatusCall(id, a)];
    }

    method ResolveWinget() returns (ok: bool)
      modifies this
      ensures Passed() && trace == old(trace) + [WingetResolved(ok)]
    {
      Elapse();
      ok := *;
      trace := trace + [WingetResolved(ok)];
    }

    method UpdatableApps() returns (apps: seq<App>)
      modifies this
      ensures Passed() && trace == old(trace) + [AppsListed(apps)]
    {
      Elapse();
      apps := *;
      trace := trace + [AppsListed(apps)];
    }

    /** The lower-case IDs among the queued apps that the Store updates. */
    method StoreApps(ids: seq<string>) returns (store: set<string>)
      modifies this
      ensures Passed() && trace == old(trace) + [StoreListed(store)]
    {
      Elapse();
      store := *;
      trace := trace + [StoreListed(store)];
    }

    method PendingFileRenames() returns (entries: seq<string>)
      modifies this
      ensures Passed() && trace == old(trace) + [RenamesRead(entries)]
    {
      Elapse();
      entries := *;
      trace := trace + [RenamesRead(entries)];
    }

    method CheckApp(id: string) returns (a: UpgradeAnswer)
      modifies this
      ensures Passed() && trace == old(trace) + [AppChecked(id, a)]
    {
      Elapse();
      a := *;
      trace := trace + [AppChecked(id, a)];
    }

    /** The exit code of winget upgrade, or None when winget did not complete. */
    method UpgradeApp(id: string) returns (exit: Option<int>)
      modifies this
      ensures Passed() && trace == old(trace) + [AppUpgraded(id, exit)]
    {
      Elapse();
      exit := *;
      trace := trace + [AppUpgraded(id, exit)];
    }
  }
}
