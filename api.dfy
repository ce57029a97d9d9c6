/** The public API: an `AppInfoContext` holding the cached catalog of
    installed applications and the "refresh in progress" flag, filling the
    cache from the platform on first use and answering queries from it.

    The platform's listing of installed applications is not modelled; each
    operation that may take it receives its outcome as `listing`, and the
    ghost counter `enumerations` records how many times it was taken. */
module Api {
  import opened Common
  import Linux

  class AppInfoContext {
    /** The cached catalog (the `Mutex<Vec<App>>`). */
    var cachedApps: seq<App>
    /** The `refreshing` flag (the shared `AtomicBool`). */
    var refreshing: bool
    /** How many times the platform listing has been taken. */
    ghost var enumerations: nat

    /** `new`: an empty cache, not refreshing. */
    constructor()
      ensures cachedApps == [] && !refreshing && enumerations == 0
    {
      cachedApps := [];
      refreshing := false;
      enumerations := 0;
    }

    /** The state after one refresh from `listing`: a successful listing
        replaces the cache and clears the flag; a failed one leaves the cache
        as it was and the flag raised. */
    twostate predicate RefreshedWith(listing: Result<seq<App>>)
      reads this
    {
      enumerations == old(enumerations) + 1
      && match listing
         case Success(apps) => cachedApps == apps && !refreshing
         case Failure(_) => cachedApps == old(cachedApps) && refreshing
    }

    /** The state after `refresh_if_needed`: a non-empty cache is left alone,
        an empty one is refreshed. */
    twostate predicate LoadedWith(listing: Result<seq<App>>)
      reads this
    {
      if old(cachedApps) == [] then RefreshedWith(listing)
      else cachedApps == old(cachedApps) && refreshing == old(refreshing)
           && enumerations == old(enumerations)
    }

    /** Whether loading the cache from `listing` fails: only an empty cache
        takes the listing. */
    predicate LoadFails(listing: Result<seq<App>>)
      reads this
    {
      cachedApps == [] && listing.Failure?
    }

    /** `refresh_apps`: raise the flag, take the listing, store it and lower
        the flag; an error is returned before the flag is lowered. */
    method RefreshApps(listing: Result<seq<App>>) returns (r: Result<()>)
      modifies this
      ensures RefreshedWith(listing)
      ensures r == (if listing.Success? then Success(()) else Failure(listing.error))
    {
      refreshing := true;
      enumerations := enumerations + 1;
      if listing.Failure? {
        return Failure(listing.error);
      }
      cachedApps := listing.value;
      refreshing := false;
      return Success(());
    }

    /** `refresh_if_needed`: refresh only when the cache is empty. */
    method RefreshIfNeeded(listing: Result<seq<App>>) returns (r: Result<()>)
      modifies this
      ensures LoadedWith(listing)
      ensures r == (if old(LoadFails(listing)) then Failure(listing.error) else Success(()))
    {
      if cachedApps == [] {
        r := RefreshApps(listing);
      } else {
        r := Success(());
      }
    }

    /** `get_all_apps`: the cache, loaded first if it was empty. A failed
        load panics in the source and is reported as a failure here. */
    method GetAllApps(listing: Result<seq<App>>) returns (r: Result<seq<App>>)
      modifies this
      ensures LoadedWith(listing)
      ensures r == (if old(LoadFails(listing)) then Failure(listing.error) else Success(cachedApps))
    {
      var loaded := RefreshIfNeeded(listing);
      if loaded.Failure? {
        return Failure(loaded.error);
      }
      return Success(cachedApps);
    }

    /** `get_running_apps`: the running applications among the cached
        catalog; any error of the X11 tools gives the empty list. */
    method GetRunningApps(listing: Result<seq<App>>, session: Linux.X11Session)
      returns (r: Result<seq<App>>)
      modifies this
      ensures LoadedWith(listing)
      ensures old(LoadFails(listing)) ==> r == Failure(listing.error)
      ensures !old(LoadFails(listing)) ==>
        r == Success(match Linux.RunningApps(cachedApps, session)
                     case Success(apps) => apps
                     case Failure(_) => [])
    {
      var loaded := RefreshIfNeeded(listing);
      if loaded.Failure? {
        return Failure(loaded.error);
      }
      var running := Linux.GetRunningApps(cachedApps, session);
      if running.Failure? {
        return Success([]);
      }
      return Success(running.value);
    }

    /** `get_frontmost_application`: the frontmost application looked up in
        the cached catalog. */
    method GetFrontmostApplication(listing: Result<seq<App>>, xprop: Linux.XpropQuery -> Linux.CommandOutput)
      returns (r: Result<App>)
      modifies this
      ensures LoadedWith(listing)
      ensures old(LoadFails(listing)) ==> r == Failure(listing.error)
      ensures !old(LoadFails(listing)) && Linux.ActiveWindowClass(xprop).Failure? ==>
        r == Failure(Linux.ActiveWindowClass(xprop).error)
      ensures !old(LoadFails(listing)) && Linux.ActiveWindowClass(xprop).Success? ==>
        match Linux.FirstMatch(cachedApps, Linux.ActiveWindowClass(xprop).value)
        case Some(k) => r == Success(cachedApps[k])
        case None => r == Failure(NoMatchingApp)
    {
      var loaded := RefreshIfNeeded(listing);
      if loaded.Failure? {
        return Failure(loaded.error);
      }
      r := Linux.GetFrontmostApplication(cachedApps, xprop);
    }

    /** `is_refreshing`. */
    method IsRefreshing() returns (b: bool)
      ensures b == refreshing
    {
      return refreshing;
    }

    /** `empty_cache`: clear the catalog, nothing else. */
    method EmptyCache()
      modifies this
      ensures cachedApps == []
      ensures refreshing == old(refreshing) && enumerations == old(enumerations)
    {
      cachedApps := [];
    }

    /** `refresh_apps_in_background`, the caller's side: when no refresh is
        under way, raise the flag and start one (reported as `spawned`);
        otherwise do nothing. */
    method RefreshAppsInBackground() returns (spawned: bool)
      modifies this
      ensures spawned == !old(refreshing)
      ensures refreshing
      ensures cachedApps == old(cachedApps) && enumerations == old(enumerations)
    {
      if refreshing {
        return false;
      }
      refreshing := true;
      return true;
    }

    /** The spawned thread's work: refresh, then lower the flag. When the
        refresh fails its `unwrap` ends the thread before the flag is
        lowered. */
    method BackgroundRefresh(listing: Result<seq<App>>)
      modifies this
      ensures RefreshedWith(listing)
    {
      var r := RefreshApps(listing);
      if r.Success? {
        refreshing := false;
      }
    }
  }

  // ---------------------------------------------------------------------
  // How a client sees the cache

  /** A new context's first read returns exactly the platform listing. */
  method FirstReadIsListing(listing: Result<seq<App>>) returns (apps: Result<seq<App>>)
    ensures apps == listing
  {
    var ctx := new AppInfoContext();
    apps := ctx.GetAllApps(listing);
  }

  /** Once a non-empty catalog is cached, a second read returns it again
      without taking the listing, whatever the listing would now give; after
      an empty or failed listing the second read takes the listing anew. */
  method SecondReadIsCached(first: Result<seq<App>>, second: Result<seq<App>>)
    returns (a: Result<seq<App>>, b: Result<seq<App>>, ghost enumerated: nat)
    ensures a == first
    ensures first.Success? && first.value != [] ==> b == first && enumerated == 1
    ensures !(first.Success? && first.value != []) ==> b == second && enumerated == 2
  {
    var ctx := new AppInfoContext();
    a := ctx.GetAllApps(first);
    b := ctx.GetAllApps(second);
    enumerated := ctx.enumerations;
  }

  /** `empty_cache` forces the next read to take the listing exactly once
      more and to return what it gives. */
  method EmptyCacheForcesReload(first: Result<seq<App>>, second: Result<seq<App>>)
    returns (b: Result<seq<App>>, ghost enumerated: nat)
    ensures b == second
    ensures enumerated == 2
  {
    var ctx := new AppInfoContext();
    var a := ctx.GetAllApps(first);
    ctx.EmptyCache();
    b := ctx.GetAllApps(second);
    enumerated := ctx.enumerations;
  }

  /** Of two back-to-back background requests, only the first starts a
      refresh. */
  method SingleFlight() returns (first: bool, second: bool)
    ensures first && !second
  {
    var ctx := new AppInfoContext();
    first := ctx.RefreshAppsInBackground();
    second := ctx.RefreshAppsInBackground();
  }

  /** After a background refresh completes, another can start only if it
      succeeded: a failed one leaves the flag raised, so background requests
      do nothing until a later successful `refresh_apps` lowers it. */
  method BackgroundRefreshOutcome(listing: Result<seq<App>>) returns (stillRefreshing: bool, again: bool)
    ensures stillRefreshing <==> listing.Failure?
    ensures again <==> listing.Success?
  {
    var ctx := new AppInfoContext();
    var started := ctx.RefreshAppsInBackground();
    ctx.BackgroundRefresh(listing);
    stillRefreshing := ctx.IsRefreshing();
    again := ctx.RefreshAppsInBackground();
  }

  /** A failed refresh keeps the catalog that was cached before it and
      leaves the flag raised; a read that follows serves a non-empty catalog
      and, with an empty one, takes the listing again. */
  method FailedRefreshKeepsCache(apps: seq<App>, e: Error) returns (kept: Result<seq<App>>, flag: bool)
    ensures flag
    ensures apps != [] ==> kept == Success(apps)
    ensures apps == [] ==> kept == Failure(e)
  {
    var ctx := new AppInfoContext();
    var loaded := ctx.RefreshApps(Success(apps));
    var failed := ctx.RefreshApps(Failure(e));
    flag := ctx.IsRefreshing();
    kept := ctx.GetAllApps(Failure(e));
  }

  /** A failed background refresh blocks further background requests only
      until a successful `refresh_apps` (called directly, or by a read that
      finds the cache empty) lowers the flag again. */
  method RefreshAfterFailedBackgroundRefresh(e: Error, apps: seq<App>)
    returns (blocked: bool, again: bool)
    ensures !blocked && again
  {
    var ctx := new AppInfoContext();
    var started := ctx.RefreshAppsInBackground();
    ctx.BackgroundRefresh(Failure(e));
    blocked := ctx.RefreshAppsInBackground();
    var refreshed := ctx.RefreshApps(Success(apps));
    again := ctx.RefreshAppsInBackground();
  }

  /** `refresh_apps` does not look at the flag: a read that finds the cache
      empty while a background refresh is pending enumerates by itself and
      lowers the flag, so a second background refresh can start before the
      first has run. */
  method ReadDuringBackgroundRefresh(apps: seq<App>)
    returns (first: bool, read: Result<seq<App>>, second: bool, ghost enumerated: nat)
    ensures first && second
    ensures read == Success(apps)
    ensures enumerated == 1
  {
    var ctx := new AppInfoContext();
    first := ctx.RefreshAppsInBackground();
    read := ctx.GetAllApps(Success(apps));
    enumerated := ctx.enumerations;
    second := ctx.RefreshAppsInBackground();
  }
}
