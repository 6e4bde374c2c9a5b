/** The content-addressed cache of pinned build sources. */
module BuildCaches {
  import opened Prelude
  import opened Text

  type Bytes = seq<bv8>

  datatype Source = Source(stage: string, url: string, sha256: string, name: string)

  /** Where an entry is stored beneath the cache: the digest's directory, and the file name. */
  type Key = (string, string)

  type Entries = map<Key, Bytes>

  datatype Error =
    | WrongEntry(source: Source)
    | DownloadRefused(source: Source)
    | WrongBytes(source: Source)
    | Problems(missing: seq<Source>)
    | SpaceInDirectory(directory: string)

  /** What the outside decides: digests, and what the n-th download of a run's host delivers. */
  datatype World = World(sha: Bytes -> string, network: (nat, string) -> Option<Bytes>)

  function EntryOf(s: Source): Key {
    (s.sha256, s.name)
  }

  /** An entry is there and its bytes are the pinned ones. */
  predicate Verified(w: World, entries: Entries, s: Source) {
    EntryOf(s) in entries && w.sha(entries[EntryOf(s)]) == s.sha256
  }

  datatype Action = Cached | Fetched

  datatype Fetch = Fetch(entries: Entries, downloads: nat, actions: seq<Action>, error: Option<Error>)

  /** Fetching the first `n` sources, having made `downloads` downloads before. */
  function FetchFirst(w: World, entries: Entries, downloads: nat, sources: seq<Source>, n: nat): Fetch
    requires n <= |sources|
  {
    if n == 0 then Fetch(entries, downloads, [], None)
    else
      var f := FetchFirst(w, entries, downloads, sources, n - 1);
      var s := sources[n - 1];
      if f.error.Some? then f
      else if EntryOf(s) in f.entries then
        if w.sha(f.entries[EntryOf(s)]) != s.sha256 then f.(error := Some(WrongEntry(s)))
        else f.(actions := f.actions + [Cached])
      else
        var bytes := w.network(f.downloads, s.url);
        var f := f.(downloads := f.downloads + 1);
        if bytes == None then f.(error := Some(DownloadRefused(s)))
        else if w.sha(bytes.value) != s.sha256 then f.(error := Some(WrongBytes(s)))
        else f.(entries := f.entries[EntryOf(s) := bytes.value], actions := f.actions + [Fetched])
  }

  function FetchAll(w: World, entries: Entries, downloads: nat, sources: seq<Source>): Fetch {
    FetchFirst(w, entries, downloads, sources, |sources|)
  }

  function DirectoryOf(cache: string, s: Source): string {
    cache + "/" + s.sha256
  }

  predicate HasSpace(s: string) {
    exists i :: 0 <= i < |s| && IsSpace(s[i])
  }

  function FlagOf(cache: string, s: Source): string {
    "--build-context " + s.stage + "=" + DirectoryOf(cache, s)
  }

  /** Checking the first `n` sources: the flags and the sources with a problem, or the directory that stopped it. */
  function CheckFirst(w: World, entries: Entries, cache: string, sources: seq<Source>, n: nat)
    : Result<(seq<string>, seq<Source>), Error>
    requires n <= |sources|
  {
    if n == 0 then Ok(([], []))
    else
      var s := sources[n - 1];
      match CheckFirst(w, entries, cache, sources, n - 1)
      case Err(e) => Err(e)
      case Ok((flags, problems)) =>
        if !Verified(w, entries, s) then Ok((flags, problems + [s]))
        else if HasSpace(DirectoryOf(cache, s)) then Err(SpaceInDirectory(DirectoryOf(cache, s)))
        else Ok((flags + [FlagOf(cache, s)], problems))
  }

  function Preflight(w: World, entries: Entries, cache: string, sources: seq<Source>): Result<seq<string>, Error> {
    match CheckFirst(w, entries, cache, sources, |sources|)
    case Err(e) => Err(e)
    case Ok((flags, problems)) => if problems != [] then Err(Problems(problems)) else Ok(flags)
  }

  class Cache {
    var entries: Entries
    var downloads: nat

    constructor (entries: Entries)
      ensures this.entries == entries && downloads == 0
    {
      this.entries, downloads := entries, 0;
    }

    method FetchSources(w: World, sources: seq<Source>) returns (actions: seq<Action>, error: Option<Error>)
      modifies this
      ensures Fetch(entries, downloads, actions, error) == FetchAll(w, old(entries), old(downloads), sources)
    {
      actions := [];
      for n := 0 to |sources|
        invariant FetchFirst(w, old(entries), old(downloads), sources, n) == Fetch(entries, downloads, actions, None)
      {
        var s := sources[n];
        if EntryOf(s) in entries {
          if w.sha(entries[EntryOf(s)]) != s.sha256 {
            error := Some(WrongEntry(s));
            FetchStops(w, old(entries), old(downloads), sources, n + 1);
            return;
          }
          actions := actions + [Cached];
          continue;
        }
        var partial := w.network(downloads, s.url);
        downloads := downloads + 1;
        if partial == None {
          error := Some(DownloadRefused(s));
          FetchStops(w, old(entries), old(downloads), sources, n + 1);
          return;
        }
        if w.sha(partial.value) != s.sha256 {
          error := Some(WrongBytes(s));
          FetchStops(w, old(entries), old(downloads), sources, n + 1);
          return;
        }
        entries := entries[EntryOf(s) := partial.value];
        actions := actions + [Fetched];
      }
      error := None;
    }

    method CheckSources(w: World, cache: string, sources: seq<Source>) returns (r: Result<seq<string>, Error>)
      ensures r == Preflight(w, entries, cache, sources)
    {
      var flags: seq<string>, problems: seq<Source> := [], [];
      for n := 0 to |sources|
        invariant CheckFirst(w, entries, cache, sources, n) == Ok((flags, problems))
      {
        var s := sources[n];
        if EntryOf(s) !in entries {
          problems := problems + [s];
        } else if w.sha(entries[EntryOf(s)]) != s.sha256 {
          problems := problems + [s];
        } else {
          var directory := DirectoryOf(cache, s);
          if HasSpace(directory) {
            CheckStops(w, entries, cache, sources, n + 1);
            return Err(SpaceInDirectory(directory));
          }
          flags := flags + [FlagOf(cache, s)];
        }
      }
      return if problems != [] then Err(Problems(problems)) else Ok(flags);
    }
  }

  lemma FetchStops(w: World, entries: Entries, downloads: nat, sources: seq<Source>, n: nat)
    requires n <= |sources| && FetchFirst(w, entries, downloads, sources, n).error.Some?
    ensures FetchAll(w, entries, downloads, sources) == FetchFirst(w, entries, downloads, sources, n)
    decreases |sources| - n
  {
    if n < |sources| {
      FetchStops(w, entries, downloads, sources, n + 1);
    }
  }

  lemma CheckStops(w: World, entries: Entries, cache: string, sources: seq<Source>, n: nat)
    requires n <= |sources| && CheckFirst(w, entries, cache, sources, n).Err?
    ensures CheckFirst(w, entries, cache, sources, |sources|) == CheckFirst(w, entries, cache, sources, n)
    decreases |sources| - n
  {
    if n < |sources| {
      CheckStops(w, entries, cache, sources, n + 1);
    }
  }

  // ----- what every run keeps

  /** Nothing that was there is touched, and whatever is new has the bytes its digest names. */
  ghost predicate OnlyAddsVerified(w: World, before: Entries, after: Entries) {
    && (forall k :: k in before ==> k in after && after[k] == before[k])
    && (forall k :: k in after && k !in before ==> w.sha(after[k]) == k.0)
  }

  /** Every run, one that fails midway included, only adds verified entries. */
  lemma {:induction false} FetchOnlyAddsVerified(w: World, entries: Entries, downloads: nat, sources: seq<Source>, n: nat)
    requires n <= |sources|
    ensures OnlyAddsVerified(w, entries, FetchFirst(w, entries, downloads, sources, n).entries)
  {
    if n > 0 {
      FetchOnlyAddsVerified(w, entries, downloads, sources, n - 1);
    }
  }

  lemma {:induction false} FetchVerifies(w: World, entries: Entries, downloads: nat, sources: seq<Source>, n: nat)
    requires n <= |sources| && FetchFirst(w, entries, downloads, sources, n).error == None
    ensures forall i :: 0 <= i < n ==> Verified(w, FetchFirst(w, entries, downloads, sources, n).entries, sources[i])
  {
    if n > 0 {
      FetchVerifies(w, entries, downloads, sources, n - 1);
    }
  }

  // ----- after a fetch

  function Repeat(n: nat): seq<Action> {
    seq(n, _ => Cached)
  }

  lemma {:induction false} VerifiedFetchIsQuiet(w: World, entries: Entries, downloads: nat, sources: seq<Source>, n: nat)
    requires n <= |sources| && forall i :: 0 <= i < n ==> Verified(w, entries, sources[i])
    ensures FetchFirst(w, entries, downloads, sources, n) == Fetch(entries, downloads, Repeat(n), None)
  {
    if n > 0 {
      VerifiedFetchIsQuiet(w, entries, downloads, sources, n - 1);
      assert Repeat(n) == Repeat(n - 1) + [Cached];
    }
  }

  function Flags(cache: string, sources: seq<Source>): seq<string> {
    seq(|sources|, i requires 0 <= i < |sources| => FlagOf(cache, sources[i]))
  }

  lemma {:induction false} CheckFinds(w: World, entries: Entries, cache: string, sources: seq<Source>, n: nat)
    requires n <= |sources|
    ensures var r := CheckFirst(w, entries, cache, sources, n);
            && (r.Ok? && r.value.1 == [] <==>
                  forall i :: 0 <= i < n ==> Verified(w, entries, sources[i]) && !HasSpace(DirectoryOf(cache, sources[i])))
            && (r.Ok? && r.value.1 == [] ==> r.value.0 == Flags(cache, sources[..n]))
  {
    hide HasSpace, Verified;
    if n > 0 {
      CheckFinds(w, entries, cache, sources, n - 1);
      assert sources[..n] == sources[..n - 1] + [sources[n - 1]];
    }
  }

  /**
   * Preflight passes exactly when every source has a verified entry in a directory without white space, and then gives
   * one flag a stage, in order.
   */
  lemma PreflightIffVerified(w: World, entries: Entries, cache: string, sources: seq<Source>)
    ensures var r := Preflight(w, entries, cache, sources);
            && (r.Ok? <==> forall s :: s in sources ==> Verified(w, entries, s) && !HasSpace(DirectoryOf(cache, s)))
            && (r.Ok? ==> r.value == Flags(cache, sources))
  {
    hide HasSpace, Verified;
    CheckFinds(w, entries, cache, sources, |sources|);
    assert sources[..|sources|] == sources;
  }

  /**
   * After a fetch that succeeds, fetching again downloads nothing and changes nothing, and preflight passes unless the
   * cache's own path, or a digest, holds white space.
   */
  lemma FetchThenPreflight(w: World, entries: Entries, downloads: nat, cache: string, sources: seq<Source>)
    requires FetchAll(w, entries, downloads, sources).error == None
    ensures var f := FetchAll(w, entries, downloads, sources);
            && FetchAll(w, f.entries, f.downloads, sources) == Fetch(f.entries, f.downloads, Repeat(|sources|), None)
            && (Preflight(w, f.entries, cache, sources) == Ok(Flags(cache, sources)) <==>
                  forall s :: s in sources ==> !HasSpace(DirectoryOf(cache, s)))
  {
    hide HasSpace, Verified;
    var f := FetchAll(w, entries, downloads, sources);
    FetchVerifies(w, entries, downloads, sources, |sources|);
    VerifiedFetchIsQuiet(w, f.entries, f.downloads, sources, |sources|);
    PreflightIffVerified(w, f.entries, cache, sources);
  }

  // ----- entries, flags and reports

  /** Two sources have the same entry exactly when they have the same digest and the same name. */
  lemma EntriesAreApart(a: Source, b: Source)
    ensures EntryOf(a) == EntryOf(b) <==> a.sha256 == b.sha256 && a.name == b.name
  {
  }

  /** Text with one mark in it splits at the first in one way. */
  lemma SplitsAtFirst(mark: char, a: string, x: string, b: string, y: string)
    requires mark !in a && mark !in b && a + [mark] + x == b + [mark] + y
    ensures a == b && x == y
  {
    var c := a + [mark] + x;
    assert c[|a|] == mark && c[|b|] == mark;
    forall i | 0 <= i < |a|
      ensures c[i] != mark
    {
      assert c[i] == a[i];
    }
    forall i | 0 <= i < |b|
      ensures c[i] != mark
    {
      assert c[i] == b[i];
    }
    assert |a| == |b|;
    assert a == c[..|a|] && b == c[..|b|] && x == c[|a| + 1..] && y == c[|b| + 1..];
  }

  /** A flag tells its stage and its directory, which is the cache's for that digest. */
  lemma FlagTellsStage(cache: string, a: Source, b: Source)
    requires '=' !in a.stage && '=' !in b.stage
    ensures FlagOf(cache, a) == FlagOf(cache, b) <==> a.stage == b.stage && a.sha256 == b.sha256
    ensures FlagOf(cache, a) == "--build-context " + a.stage + "=" + cache + "/" + EntryOf(a).0
  {
    var p := "--build-context ";
    var x, y := cache + "/" + a.sha256, cache + "/" + b.sha256;
    assert FlagOf(cache, a) == p + (a.stage + ['='] + x) && FlagOf(cache, b) == p + (b.stage + ['='] + y);
    if FlagOf(cache, a) == FlagOf(cache, b) {
      assert a.stage + ['='] + x == FlagOf(cache, a)[|p|..] == b.stage + ['='] + y;
      SplitsAtFirst('=', a.stage, x, b.stage, y);
      assert a.sha256 == x[|cache| + 1..] == y[|cache| + 1..] == b.sha256;
    }
    assert FlagOf(cache, a) == p + a.stage + "=" + cache + "/" + EntryOf(a).0;
  }

  /** The entry of the `i`-th source was there before the run, or was fetched for a source before it. */
  ghost predicate ThereBefore(entries: Entries, sources: seq<Source>, i: nat)
    requires i < |sources|
  {
    EntryOf(sources[i]) in entries || exists j :: 0 <= j < i && EntryOf(sources[j]) == EntryOf(sources[i])
  }

  function Count(actions: seq<Action>): nat {
    if actions == [] then 0
    else Count(actions[..|actions| - 1]) + if actions[|actions| - 1] == Fetched then 1 else 0
  }

  /** The sources dealt with are cached or fetched, and theirs are the entries added. */
  lemma {:induction false} FetchReports(w: World, entries: Entries, downloads: nat, sources: seq<Source>, n: nat)
    requires n <= |sources|
    ensures var f := FetchFirst(w, entries, downloads, sources, n);
            && |f.actions| <= n && (f.error == None <==> |f.actions| == n)
            && (forall i :: 0 <= i < |f.actions| ==> (f.actions[i] == Cached <==> ThereBefore(entries, sources, i)))
            && (forall k :: k in f.entries <==> k in entries || exists i :: 0 <= i < |f.actions| && EntryOf(sources[i]) == k)
  {
    hide EntryOf, FetchFirst;
    if n == 0 {
      NothingFetched(w, entries, downloads, sources);
    } else {
      FetchReports(w, entries, downloads, sources, n - 1);
      var f := FetchFirst(w, entries, downloads, sources, n - 1);
      if f.error == None {
        assert EntryOf(sources[n - 1]) in f.entries <==> ThereBefore(entries, sources, n - 1);
        OneMoreEntry(w, entries, downloads, sources, n);
      } else {
        FailsLater(w, entries, downloads, sources, n);
      }
    }
  }

  /** What one more source adds to the entries and the report of a run that has not failed. */
  lemma OneMoreEntry(w: World, entries: Entries, downloads: nat, sources: seq<Source>, n: nat)
    requires 0 < n <= |sources| && FetchFirst(w, entries, downloads, sources, n - 1).error == None
    ensures var f, g := FetchFirst(w, entries, downloads, sources, n - 1), FetchFirst(w, entries, downloads, sources, n);
            var cached := EntryOf(sources[n - 1]) in f.entries;
            if g.error.Some? then g.entries == f.entries && g.actions == f.actions
            else g.entries.Keys == f.entries.Keys + {EntryOf(sources[n - 1])}
                 && g.actions == f.actions + [if cached then Cached else Fetched]
  {
    hide EntryOf;
  }

  /** One download is made for each source fetched, and one for a source whose download failed. */
  lemma {:induction false} FetchCounts(w: World, entries: Entries, downloads: nat, sources: seq<Source>, n: nat)
    requires n <= |sources|
    ensures var f := FetchFirst(w, entries, downloads, sources, n);
            f.downloads == downloads + Count(f.actions) + if f.error.Some? && !f.error.value.WrongEntry? then 1 else 0
  {
    hide EntryOf, Count;
    NothingCounts();
    if n > 0 {
      FetchCounts(w, entries, downloads, sources, n - 1);
      CountOneMore(FetchFirst(w, entries, downloads, sources, n - 1).actions);
    }
  }

  lemma NothingCounts()
    ensures Count([]) == 0
  {
  }

  lemma CountOneMore(actions: seq<Action>)
    ensures Count(actions + [Cached]) == Count(actions) && Count(actions + [Fetched]) == Count(actions) + 1
  {
    assert (actions + [Cached])[..|actions|] == actions && (actions + [Fetched])[..|actions|] == actions;
  }

  /** What the error of a run says of the first source not dealt with. */
  ghost predicate Explains(w: World, entries: Entries, s: Source, download: nat, e: Error) {
    match e
    case WrongEntry(source) => source == s && EntryOf(s) in entries && w.sha(entries[EntryOf(s)]) != s.sha256
    case DownloadRefused(source) => source == s && EntryOf(s) !in entries && w.network(download, s.url) == None
    case WrongBytes(source) =>
      && source == s && EntryOf(s) !in entries
      && w.network(download, s.url).Some? && w.sha(w.network(download, s.url).value) != s.sha256
    case _ => false
  }

  /** A run stops at the first source whose entry is wrong, or is absent and cannot be had with the right bytes. */
  lemma {:induction false} FailureExplains(w: World, entries: Entries, downloads: nat, sources: seq<Source>, n: nat)
    requires n <= |sources| && FetchFirst(w, entries, downloads, sources, n).error.Some?
    ensures var f := FetchFirst(w, entries, downloads, sources, n);
            |f.actions| < n && Explains(w, f.entries, sources[|f.actions|], downloads + Count(f.actions), f.error.value)
  {
    hide EntryOf, ThereBefore, Explains, Count, FetchFirst;
    FailsLater(w, entries, downloads, sources, n);
    if FetchFirst(w, entries, downloads, sources, n - 1).error.Some? {
      FailureExplains(w, entries, downloads, sources, n - 1);
    } else {
      assert |FetchFirst(w, entries, downloads, sources, n - 1).actions| == n - 1 by {
        FetchReports(w, entries, downloads, sources, n - 1);
      }
      FetchCounts(w, entries, downloads, sources, n - 1);
      FailsAt(w, entries, downloads, sources, n);
    }
  }

  lemma FailsLater(w: World, entries: Entries, downloads: nat, sources: seq<Source>, n: nat)
    requires n <= |sources|
    ensures n > 0 && FetchFirst(w, entries, downloads, sources, n - 1).error.Some? ==>
              FetchFirst(w, entries, downloads, sources, n) == FetchFirst(w, entries, downloads, sources, n - 1)
    ensures FetchFirst(w, entries, downloads, sources, n).error.Some? ==> n > 0
  {
  }

  lemma NothingFetched(w: World, entries: Entries, downloads: nat, sources: seq<Source>)
    ensures FetchFirst(w, entries, downloads, sources, 0) == Fetch(entries, downloads, [], None)
  {
  }

  lemma FailsAt(w: World, entries: Entries, downloads: nat, sources: seq<Source>, n: nat)
    requires 0 < n <= |sources|
    requires var f := FetchFirst(w, entries, downloads, sources, n - 1); f.error == None && |f.actions| == n - 1
    requires FetchFirst(w, entries, downloads, sources, n).error.Some?
    ensures var f, g := FetchFirst(w, entries, downloads, sources, n - 1), FetchFirst(w, entries, downloads, sources, n);
            g.actions == f.actions && g.entries == f.entries
            && Explains(w, g.entries, sources[n - 1], f.downloads, g.error.value)
  {
    hide EntryOf, Count;
  }
}
