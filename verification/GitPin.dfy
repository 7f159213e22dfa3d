/** The git registry's pull: an abstract remote and cache of refs, the resolution of a
    pinned ref, and what a pin keeps under any changes of the remote. */
module GitPin {
  import opened Common

  type Commit = string
  type Refs = map<string, Commit>

  /** `ref` and `branch` are empty when not configured. */
  datatype Config = Config(ref: string, branch: string, force: bool)
  {
    function Branch(): string { if branch != "" then branch else "main" }
  }

  datatype Remote = Remote(tags: Refs, branches: Refs)

  /** A clone: its tags, its remote-tracking branches, the one branch its refspec is
      limited to (if it is), the commits it holds and the commit checked out. */
  datatype Cache = Cache(tags: Refs, branches: Refs, only: Option<string>, objects: set<Commit>, head: Option<Commit>)

  /** The surroundings of one pull, all of them free: what the remote has now, which
      git calls and file operations fail, which tags git happens to follow, which
      branches a failing fetch still updated, which objects arrive, and what an
      abbreviated SHA names. */
  datatype World = World(
    remote: Remote,
    setupOk: bool,
    cloneOk: bool,
    fetchOk: bool,
    tagFetchOk: bool,
    probeOk: bool,
    checkoutOk: bool,
    loadOk: bool,
    followed: set<string>,
    updated: set<string>,
    arrived: set<Commit>,
    abbreviated: Option<Commit>)

  datatype Error =
    | InvalidRef
    | SetupFailed
    | CloneFailed
    | FetchFailed
    | ProbeFailed
    | Unresolved
    | Ambiguous
    | CheckoutFailed
    | LoadFailed

  // ------------------------------------------------------- configured names

  predicate IsSpace(c: char) { c in " \t\n\r" || c as int == 12 }

  /** The characters and pairs git does not allow in a ref name. */
  predicate HasRevisionSyntax(s: string) {
    || (exists i :: 0 <= i < |s| && (IsSpace(s[i]) || s[i] in "~^:?*[\\"))
    || (exists i :: 0 <= i < |s| - 1 && ((s[i] == '.' && s[i + 1] == '.') || (s[i] == '@' && s[i + 1] == '{')))
    || (s != "" && s[0] == '-')
  }

  predicate CheckRefName(s: string) {
    s == "" || !(HasRevisionSyntax(s) || s == "HEAD" || "refs/" <= s)
  }

  predicate IsHex(c: char) { '0' <= c <= '9' || 'a' <= c <= 'f' || 'A' <= c <= 'F' }

  predicate LooksLikeSha(s: string) {
    7 <= |s| <= 40 && forall i :: 0 <= i < |s| ==> IsHex(s[i])
  }

  function LowerHex(c: char): char {
    if 'A' <= c <= 'F' then (c as int + 32) as char else c
  }

  function Lower(s: string): string {
    seq(|s|, i requires 0 <= i < |s| => LowerHex(s[i]))
  }

  // -------------------------------------------------------- git on the refs

  function Restrict(refs: Refs, names: set<string>): Refs {
    map n | n in refs && n in names :: refs[n]
  }

  /** An unforced update: what the cache already has stays. */
  function AddTags(cached: Refs, incoming: Refs): Refs { incoming + cached }

  /** A forced update: what arrives wins. */
  function ForceBranches(cached: Refs, incoming: Refs): Refs { cached + incoming }

  function Tracked(c: Cache, w: World): Refs {
    if c.only.None? then w.remote.branches else Restrict(w.remote.branches, {c.only.value})
  }

  /** `git clone --branch B`, shallow and single-branch exactly when no ref is
      configured. */
  function Clone(cfg: Config, w: World): Option<Cache> {
    var b := cfg.Branch();
    if !w.cloneOk || (b !in w.remote.branches && b !in w.remote.tags) then None
    else
      var tip := if b in w.remote.branches then w.remote.branches[b] else w.remote.tags[b];
      if cfg.ref == "" then
        Some(Cache(Restrict(w.remote.tags, w.followed), Restrict(w.remote.branches, {b}),
                   Some(b), w.arrived, Some(tip)))
      else
        Some(Cache(w.remote.tags, w.remote.branches, None, w.arrived, Some(tip)))
  }

  /** `git fetch origin`: tracking branches are forced, tags only added. */
  function Fetch(c: Cache, w: World): Cache {
    var incoming := if w.fetchOk then Tracked(c, w) else Restrict(Tracked(c, w), w.updated);
    c.(branches := ForceBranches(c.branches, incoming),
       tags := AddTags(c.tags, Restrict(w.remote.tags, w.followed)),
       objects := c.objects + w.arrived)
  }

  /** The fetch of the one tag a ref could name; its failure is not reported. */
  function FetchPinnedTag(cfg: Config, c: Cache, w: World): Cache {
    if cfg.ref == "" || !w.tagFetchOk then c
    else c.(tags := AddTags(c.tags, Restrict(w.remote.tags, {cfg.ref})))
  }

  function Find(refs: Refs, name: string): Option<Commit> {
    if name in refs then Some(refs[name]) else None
  }

  /** What git makes of the ref as a commit. All forty digits name that commit, if the
      cache holds it. */
  function Bare(ref: string, c: Cache, w: World): Option<Commit> {
    if |ref| == 40 then (if Lower(ref) in c.objects then Some(Lower(ref)) else None) else w.abbreviated
  }

  // ------------------------------------------------------------- resolution

  /** Tag, branch and commit; a commit only if the ref looks like one. */
  function Candidates(ref: string, c: Cache, w: World): seq<Option<Commit>> {
    [Find(c.tags, ref), Find(c.branches, ref), if LooksLikeSha(ref) then Bare(ref, c, w) else None]
  }

  function Resolve(cfg: Config, c: Cache, w: World): Result<Commit, Error> {
    if !w.probeOk then Err(ProbeFailed)
    else if cfg.ref == "" then
      (match Find(c.branches, cfg.Branch()) case Some(s) => Ok(s) case None => Err(Unresolved))
    else Agreed(Candidates(cfg.ref, c, w))
  }

  /** The candidates that resolved, in order. */
  function Resolved(cands: seq<Option<Commit>>): seq<Commit> {
    if cands == [] then []
    else
      var last := cands[|cands| - 1];
      Resolved(cands[..|cands| - 1]) + if last.Some? then [last.value] else []
  }

  function Agreed(cands: seq<Option<Commit>>): Result<Commit, Error> {
    var found := Resolved(cands);
    if found == [] then Err(Unresolved)
    else if forall i :: 1 <= i < |found| ==> found[i] == found[0] then Ok(found[0])
    else Err(Ambiguous)
  }

  /** The resolution loop. */
  method Agree(cands: seq<Option<Commit>>) returns (r: Result<Commit, Error>)
    ensures r == Agreed(cands)
  {
    var found: seq<Commit> := [];
    for i := 0 to |cands|
      invariant found == Resolved(cands[..i])
    {
      assert cands[..i + 1][..i] == cands[..i];
      if cands[i].Some? {
        found := found + [cands[i].value];
      }
    }
    assert cands[..|cands|] == cands;
    if |found| == 0 {
      return Err(Unresolved);
    }
    for i := 1 to |found|
      invariant forall j :: 1 <= j < i ==> found[j] == found[0]
    {
      if found[i] != found[0] {
        return Err(Ambiguous);
      }
    }
    return Ok(found[0]);
  }

  lemma {:induction false} ResolvedMembers(cands: seq<Option<Commit>>)
    ensures forall s :: s in Resolved(cands) <==> Some(s) in cands
  {
    if cands != [] {
      ResolvedMembers(cands[..|cands| - 1]);
      assert cands == cands[..|cands| - 1] + [cands[|cands| - 1]];
    }
  }

  /** A commit is returned exactly when some candidate names it and every candidate
      that names one names that; each error likewise. */
  lemma AgreedMeans(cands: seq<Option<Commit>>)
    ensures forall s :: Agreed(cands) == Ok(s) <==> Some(s) in cands && forall t :: Some(t) in cands ==> t == s
    ensures Agreed(cands) == Err(Unresolved) <==> forall t :: Some(t) !in cands
    ensures Agreed(cands) == Err(Ambiguous) <==> exists s, t :: Some(s) in cands && Some(t) in cands && s != t
  {
    ResolvedMembers(cands);
    var found := Resolved(cands);
    if found != [] {
      assert found[0] in found;
      forall t | Agreed(cands).Ok? && t in found ensures t == found[0] {
      }
      if Agreed(cands) == Err(Ambiguous) {
        var i :| 1 <= i < |found| && found[i] != found[0];
        assert Some(found[i]) in cands && Some(found[0]) in cands;
      }
    }
  }

  /** The order of the candidates does not matter. */
  lemma OrderDoesNotMatter(a: seq<Option<Commit>>, b: seq<Option<Commit>>)
    requires forall x :: x in a <==> x in b
    ensures Agreed(a) == Agreed(b)
  {
    AgreedMeans(a);
    AgreedMeans(b);
  }

  // ------------------------------------------------------------------- pull

  /** The cache and the result after one pull. */
  function Pulled(cfg: Config, w: World, cache: Option<Cache>): (Option<Cache>, Result<Commit, Error>) {
    if !(CheckRefName(cfg.ref) && CheckRefName(cfg.branch)) then (cache, Err(InvalidRef))
    else if !w.setupOk then (cache, Err(SetupFailed))
    else
      var present := if cfg.force then None else cache;
      match present
      case None =>
        (match Clone(cfg, w)
         case None => (None, Err(CloneFailed))
         case Some(c) => CheckedOut(cfg, w, c))
      case Some(c) =>
        var fetched := Fetch(c, w);
        if !w.fetchOk then (Some(fetched), Err(FetchFailed)) else CheckedOut(cfg, w, FetchPinnedTag(cfg, fetched, w))
  }

  function CheckedOut(cfg: Config, w: World, c: Cache): (Option<Cache>, Result<Commit, Error>) {
    match Resolve(cfg, c, w)
    case Err(e) => (Some(c), Err(e))
    case Ok(s) =>
      if !w.checkoutOk then (Some(c), Err(CheckoutFailed))
      else (Some(c.(head := Some(s))), if w.loadOk then Ok(s) else Err(LoadFailed))
  }

  class Resolver {
    var cache: Option<Cache>

    constructor ()
      ensures cache == None
    {
      cache := None;
    }

    method Pull(cfg: Config, w: World) returns (r: Result<Commit, Error>)
      modifies this
      ensures (cache, r) == Pulled(cfg, w, old(cache))
    {
      if !(CheckRefName(cfg.ref) && CheckRefName(cfg.branch)) {
        return Err(InvalidRef);
      }
      if !w.setupOk {
        return Err(SetupFailed);
      }
      if cfg.force {
        cache := None;
      }
      if cache == None {
        cache := Clone(cfg, w);
        if cache == None {
          return Err(CloneFailed);
        }
      } else {
        cache := Some(Fetch(cache.value, w));
        if !w.fetchOk {
          return Err(FetchFailed);
        }
        cache := Some(FetchPinnedTag(cfg, cache.value, w));
      }
      r := ResolveCheckoutRef(cfg, w);
      if r.Ok? {
        if !w.checkoutOk {
          return Err(CheckoutFailed);
        }
        cache := Some(cache.value.(head := Some(r.value)));
        if !w.loadOk {
          return Err(LoadFailed);
        }
      }
    }

    method ResolveCheckoutRef(cfg: Config, w: World) returns (r: Result<Commit, Error>)
      requires cache.Some?
      ensures r == Resolve(cfg, cache.value, w)
    {
      if !w.probeOk {
        return Err(ProbeFailed);
      }
      if cfg.ref == "" {
        var s := Find(cache.value.branches, cfg.Branch());
        return if s.Some? then Ok(s.value) else Err(Unresolved);
      }
      r := Agree(Candidates(cfg.ref, cache.value, w));
    }
  }

  // --------------------------------------------------- what each call contributes

  predicate NamesOk(cfg: Config) { CheckRefName(cfg.ref) && CheckRefName(cfg.branch) }

  /** The pull finds a cache it may go on with. */
  predicate Reuses(cfg: Config, cache: Option<Cache>) { cache.Some? && !cfg.force }

  /** `git clone --branch` finds something to check out. */
  predicate Clonable(cfg: Config, w: World) {
    var b := if cfg.branch != "" then cfg.branch else "main";
    w.cloneOk && (b in w.remote.branches || b in w.remote.tags)
  }

  /** Cloning or fetching went through, so refs are resolved next. */
  predicate Arrives(cfg: Config, w: World, cache: Option<Cache>) {
    NamesOk(cfg) && w.setupOk && (if Reuses(cfg, cache) then w.fetchOk else Clonable(cfg, w))
  }

  /** The cache the refs are resolved in. */
  function Arrived(cfg: Config, w: World, cache: Option<Cache>): Cache
    requires Arrives(cfg, w, cache)
  {
    if Reuses(cfg, cache) then FetchPinnedTag(cfg, Fetch(cache.value, w), w) else Clone(cfg, w).value
  }

  /** What a fetch does to the refs: every tracked branch the remote has is at the remote's
      commit if the fetch works, and at the remote's or its old one if it fails; every other
      branch stays; a cached tag stays and only the remote's tags are added. */
  lemma FetchMeans(c: Cache, w: World, n: string)
    ensures var f := Fetch(c, w); var tracked := c.only.None? || c.only == Some(n);
      && (tracked && n in w.remote.branches && (w.fetchOk || n in w.updated) ==>
            n in f.branches && f.branches[n] == w.remote.branches[n])
      && (!(tracked && n in w.remote.branches && (w.fetchOk || n in w.updated)) ==>
            Find(f.branches, n) == Find(c.branches, n))
      && (n in c.tags ==> Find(f.tags, n) == Find(c.tags, n))
      && (n !in c.tags ==> Find(f.tags, n) == if n in w.followed then Find(w.remote.tags, n) else None)
      && f.objects == c.objects + w.arrived && f.head == c.head && f.only == c.only
  {
  }

  /** What a clone has: all refs for a pinned config; for a branch config that branch
      alone, with the tags that came along. */
  lemma CloneMeans(cfg: Config, w: World, n: string)
    ensures Clone(cfg, w).Some? <==> Clonable(cfg, w)
    ensures Clonable(cfg, w) ==>
      var c := Clone(cfg, w).value; var b := if cfg.branch != "" then cfg.branch else "main";
      && c.objects == w.arrived
      && (if cfg.ref != "" then
            c.tags == w.remote.tags && c.branches == w.remote.branches && c.only == None
          else
            && c.only == Some(b)
            && Find(c.branches, n) == (if n == b then Find(w.remote.branches, n) else None)
            && Find(c.tags, n) == (if n in w.followed then Find(w.remote.tags, n) else None))
  {
  }

  /** The fetch of the pinned tag adds that tag, if the cache lacks it and the remote has
      it, and does nothing else. */
  lemma TagFetchMeans(cfg: Config, c: Cache, w: World, n: string)
    ensures var f := FetchPinnedTag(cfg, c, w);
      && Find(f.tags, n) ==
           (if n !in c.tags && n == cfg.ref != "" && w.tagFetchOk then Find(w.remote.tags, n) else Find(c.tags, n))
      && f == c.(tags := f.tags)
  {
  }

  /** What the refs resolve to: without a ref the tracked branch; with one the commit that
      the tag, the branch and the SHA of that name agree on, as far as they exist. */
  ghost predicate Names(cfg: Config, c: Cache, w: World, s: Commit) {
    if cfg.ref == "" then
      var b := if cfg.branch != "" then cfg.branch else "main";
      b in c.branches && c.branches[b] == s
    else
      || (cfg.ref in c.tags && c.tags[cfg.ref] == s)
      || (cfg.ref in c.branches && c.branches[cfg.ref] == s)
      || (LooksLikeSha(cfg.ref) && Bare(cfg.ref, c, w) == Some(s))
  }

  lemma ResolveMeans(cfg: Config, c: Cache, w: World)
    ensures forall s :: Resolve(cfg, c, w) == Ok(s) <==>
      w.probeOk && Names(cfg, c, w, s) && forall t :: Names(cfg, c, w, t) ==> t == s
    ensures Resolve(cfg, c, w) == Err(ProbeFailed) <==> !w.probeOk
    ensures Resolve(cfg, c, w) == Err(Unresolved) <==> w.probeOk && forall t :: !Names(cfg, c, w, t)
    ensures Resolve(cfg, c, w) == Err(Ambiguous) <==>
      w.probeOk && exists s, t :: Names(cfg, c, w, s) && Names(cfg, c, w, t) && s != t
    ensures Resolve(cfg, c, w).Ok? || Resolve(cfg, c, w).error in {ProbeFailed, Unresolved, Ambiguous}
  {
    if cfg.ref != "" {
      var cands := Candidates(cfg.ref, c, w);
      AgreedMeans(cands);
      assert forall s :: Names(cfg, c, w, s) <==> Some(s) in cands;
    }
  }

  /** Each error is returned if and only if its call is the first to fail. */
  lemma ErrorsExactlyWhen(cfg: Config, w: World, cache: Option<Cache>)
    ensures var r := Pulled(cfg, w, cache).1;
      && (r == Err(InvalidRef) <==> !NamesOk(cfg))
      && (r == Err(SetupFailed) <==> NamesOk(cfg) && !w.setupOk)
      && (r == Err(CloneFailed) <==> NamesOk(cfg) && w.setupOk && !Reuses(cfg, cache) && !Clonable(cfg, w))
      && (r == Err(FetchFailed) <==> NamesOk(cfg) && w.setupOk && Reuses(cfg, cache) && !w.fetchOk)
      && (r == Err(ProbeFailed) <==> Arrives(cfg, w, cache) && !w.probeOk)
  {
    CloneMeans(cfg, w, "");
    if Arrives(cfg, w, cache) {
      ResolveMeans(cfg, Arrived(cfg, w, cache), w);
    }
  }

  /** And past the resolution. */
  lemma LateErrorsExactlyWhen(cfg: Config, w: World, cache: Option<Cache>)
    requires Arrives(cfg, w, cache) && w.probeOk
    ensures var (after, r) := Pulled(cfg, w, cache); var c := Arrived(cfg, w, cache);
      && (r == Err(Unresolved) <==> forall t :: !Names(cfg, c, w, t))
      && (r == Err(Ambiguous) <==> exists s, t :: Names(cfg, c, w, s) && Names(cfg, c, w, t) && s != t)
      && (r == Err(CheckoutFailed) <==> Resolve(cfg, c, w).Ok? && !w.checkoutOk)
      && (r == Err(LoadFailed) <==> Resolve(cfg, c, w).Ok? && w.checkoutOk && !w.loadOk)
      && after == Some(if Resolve(cfg, c, w).Ok? && w.checkoutOk then c.(head := Some(Resolve(cfg, c, w).value)) else c)
  {
    CloneMeans(cfg, w, "");
    ResolveMeans(cfg, Arrived(cfg, w, cache), w);
  }

  /** A pull succeeds exactly when every call works and the refs that exist agree, and then
      is at the commit they name, which is checked out. */
  lemma SucceedsExactlyWhen(cfg: Config, w: World, cache: Option<Cache>, s: Commit)
    ensures Pulled(cfg, w, cache).1 == Ok(s) <==>
      && Arrives(cfg, w, cache) && w.probeOk && w.checkoutOk && w.loadOk
      && Names(cfg, Arrived(cfg, w, cache), w, s)
      && forall t :: Names(cfg, Arrived(cfg, w, cache), w, t) ==> t == s
    ensures Pulled(cfg, w, cache).1 == Ok(s) ==>
      Pulled(cfg, w, cache).0 == Some(Arrived(cfg, w, cache).(head := Some(s)))
  {
    CloneMeans(cfg, w, "");
    if Arrives(cfg, w, cache) {
      ResolveMeans(cfg, Arrived(cfg, w, cache), w);
    }
  }

  /** A pull that does not get to the refs leaves the cache as it was, or as a failed
      fetch left it, or gone after a forced or first clone that failed. */
  lemma EarlyFailureLeaves(cfg: Config, w: World, cache: Option<Cache>)
    requires !Arrives(cfg, w, cache)
    ensures Pulled(cfg, w, cache).0 ==
      if !NamesOk(cfg) || !w.setupOk then cache
      else if Reuses(cfg, cache) then Some(Fetch(cache.value, w))
      else None
  {
    CloneMeans(cfg, w, "");
  }

  // -------------------------------------------------------- which names are refused

  /** Refused: HEAD, anything under refs/, a leading dash, and any name with a space, a
      revision character, two dots in a row or "@{". */
  lemma RefNamesRefused(x: string, c: char, y: string)
    ensures !CheckRefName("HEAD") && !CheckRefName("refs/" + x) && !CheckRefName("-" + x)
    ensures c in " \t\n\r~^:?*[\\" ==> !CheckRefName(x + [c] + y)
    ensures !CheckRefName(x + ".." + y) && !CheckRefName(x + "@{" + y)
  {
    assert ("-" + x)[0] == '-';
    assert (x + [c] + y)[|x|] == c;
    assert (x + ".." + y)[|x|] == '.' && (x + ".." + y)[|x| + 1] == '.';
    assert (x + "@{" + y)[|x|] == '@' && (x + "@{" + y)[|x| + 1] == '{';
    assert "refs/" <= "refs/" + x;
  }

  /** Accepted: any other name of letters, digits, '_', '/', '-' and single dots. */
  lemma PlainRefNamesAccepted(s: string)
    requires forall i :: 0 <= i < |s| ==>
      'a' <= s[i] <= 'z' || 'A' <= s[i] <= 'Z' || '0' <= s[i] <= '9' || s[i] in "_/-."
    requires forall i :: 0 <= i < |s| - 1 ==> !(s[i] == '.' && s[i + 1] == '.')
    requires s != "" ==> s[0] != '-' && s != "HEAD" && !("refs/" <= s)
    ensures CheckRefName(s)
  {
  }

  // ----------------------------------------------------------------- runs

  datatype Round = Round(cfg: Config, w: World)

  function Run(rounds: seq<Round>, cache: Option<Cache>): Option<Cache> {
    if rounds == [] then cache
    else
      var n := |rounds| - 1;
      Pulled(rounds[n].cfg, rounds[n].w, Run(rounds[..n], cache)).0
  }

  predicate Unforced(rounds: seq<Round>) {
    forall i :: 0 <= i < |rounds| ==> !rounds[i].cfg.force
  }

  /** The cache holds tag t at commit s. */
  predicate Pins(cache: Option<Cache>, t: string, s: Commit) {
    cache.Some? && t in cache.value.tags && cache.value.tags[t] == s
  }

  predicate Holds(cache: Option<Cache>, s: Commit) {
    cache.Some? && s in cache.value.objects
  }

  lemma PullKeepsTags(cfg: Config, w: World, cache: Option<Cache>, t: string, s: Commit)
    requires Pins(cache, t, s) && !cfg.force
    ensures Pins(Pulled(cfg, w, cache).0, t, s)
    ensures cfg.ref == t && t != "" && Pulled(cfg, w, cache).1.Ok? ==> Pulled(cfg, w, cache).1 == Ok(s)
  {
    if cfg.ref == t && t != "" {
      var c := FetchPinnedTag(cfg, Fetch(cache.value, w), w);
      assert Find(c.tags, t) == Some(s);
      AgreedMeans(Candidates(t, c, w));
      assert Candidates(t, c, w)[0] == Some(s);
    }
  }

  lemma {:induction false} RunKeepsTags(rounds: seq<Round>, cache: Option<Cache>, t: string, s: Commit)
    requires Pins(cache, t, s) && Unforced(rounds)
    ensures Pins(Run(rounds, cache), t, s)
  {
    if rounds != [] {
      var n := |rounds| - 1;
      RunKeepsTags(rounds[..n], cache, t, s);
      PullKeepsTags(rounds[n].cfg, rounds[n].w, Run(rounds[..n], cache), t, s);
    }
  }

  /** Once the tag is in the cache, every later pull of it without Force, whatever
      pulls came between and whatever the remote did, fails or checks out the same
      commit. */
  lemma {:induction false} TagPinIsStable(rounds: seq<Round>, cache: Option<Cache>, s: Commit, cfg: Config, w: World)
    requires cfg.ref != "" && Pins(cache, cfg.ref, s) && Unforced(rounds) && !cfg.force
    ensures var after := Pulled(cfg, w, Run(rounds, cache));
      Pins(after.0, cfg.ref, s) && (after.1.Ok? ==> after.1 == Ok(s) && after.0.value.head == Some(s))
  {
    RunKeepsTags(rounds, cache, cfg.ref, s);
    PullKeepsTags(cfg, w, Run(rounds, cache), cfg.ref, s);
  }

  lemma {:induction false} RunKeepsObjects(rounds: seq<Round>, cache: Option<Cache>, s: Commit)
    requires Holds(cache, s) && Unforced(rounds)
    ensures Holds(Run(rounds, cache), s)
  {
    if rounds != [] {
      RunKeepsObjects(rounds[..|rounds| - 1], cache, s);
    }
  }

  /** The same for a full commit SHA that the cache holds, even against a tag or a
      branch that is named after it. */
  lemma ShaPinIsStable(rounds: seq<Round>, cache: Option<Cache>, cfg: Config, w: World)
    requires LooksLikeSha(cfg.ref) && |cfg.ref| == 40 && Holds(cache, Lower(cfg.ref)) && Unforced(rounds) && !cfg.force
    ensures var after := Pulled(cfg, w, Run(rounds, cache));
      after.1.Ok? ==> after.1 == Ok(Lower(cfg.ref)) && after.0.value.head == Some(Lower(cfg.ref))
  {
    RunKeepsObjects(rounds, cache, Lower(cfg.ref));
    var before := Run(rounds, cache).value;
    var c := FetchPinnedTag(cfg, Fetch(before, w), w);
    assert Candidates(cfg.ref, c, w)[2] == Some(Lower(cfg.ref));
    AgreedMeans(Candidates(cfg.ref, c, w));
  }

  /** Without a ref a successful pull is at the remote's present tip of the branch,
      if the remote has it and the clone tracks it. */
  lemma BranchIsFollowed(cfg: Config, w: World, cache: Option<Cache>)
    requires cfg.ref == "" && cfg.Branch() in w.remote.branches
    requires cache.Some? && !cfg.force ==> cache.value.only in {None, Some(cfg.Branch())}
    ensures Pulled(cfg, w, cache).1.Ok? ==> Pulled(cfg, w, cache).1 == Ok(w.remote.branches[cfg.Branch()])
  {
  }

  /** A pull by name of a tag the cache lacks and the remote has: if the tag fetch
      works, a success is at the remote's tag. */
  lemma NewTagIsTheRemotes(cfg: Config, w: World, cache: Option<Cache>)
    requires cfg.ref != "" && cfg.ref in w.remote.tags
    requires cache.Some? && !cfg.force ==> cfg.ref !in cache.value.tags && w.tagFetchOk
    ensures Pulled(cfg, w, cache).1.Ok? ==>
      Pulled(cfg, w, cache).1 == Ok(w.remote.tags[cfg.ref])
      && Pins(Pulled(cfg, w, cache).0, cfg.ref, w.remote.tags[cfg.ref])
  {
    var present := if cfg.force then None else cache;
    var cloned := Clone(cfg, w);
    if present.Some? {
      var c := FetchPinnedTag(cfg, Fetch(present.value, w), w);
      assert Candidates(cfg.ref, c, w)[0] == Some(w.remote.tags[cfg.ref]);
      AgreedMeans(Candidates(cfg.ref, c, w));
    } else if cloned.Some? {
      assert Candidates(cfg.ref, cloned.value, w)[0] == Some(w.remote.tags[cfg.ref]);
      AgreedMeans(Candidates(cfg.ref, cloned.value, w));
    }
  }

  /** What a pull of a ref can still find when the cache has no tag of that name. */
  function BranchLeft(ref: string, c: Cache, w: World): Option<Commit> {
    if ref in Tracked(c, w) then Some(Tracked(c, w)[ref]) else Find(c.branches, ref)
  }

  function CommitLeft(ref: string, c: Cache, w: World): Option<Commit> {
    if LooksLikeSha(ref) then Bare(ref, Fetch(c, w), w) else None
  }

  /** A pull whose tag fetch fails, of a tag that is neither cached nor followed, while
      everything else works. */
  predicate OnlyTagFetchFails(cfg: Config, w: World, c: Cache) {
    && cfg.ref != "" && CheckRefName(cfg.ref) && CheckRefName(cfg.branch) && !cfg.force
    && w.setupOk && w.fetchOk && w.probeOk && w.checkoutOk && w.loadOk
    && !w.tagFetchOk && cfg.ref !in w.followed && cfg.ref !in c.tags
  }

  /** If it fails, nobody is told. The pull succeeds exactly when a branch of that name
      is tracked on the remote or left in the cache, or the ref reads as a commit, and
      where both do they agree; it reports an unresolved ref exactly when neither does. */
  lemma SilentTagFailure(cfg: Config, w: World, c: Cache)
    requires OnlyTagFetchFails(cfg, w, c)
    ensures var r, b, s := Pulled(cfg, w, Some(c)).1, BranchLeft(cfg.ref, c, w), CommitLeft(cfg.ref, c, w);
      && (r.Ok? <==> (b.Some? || s.Some?) && (b.Some? && s.Some? ==> b == s))
      && (r.Ok? ==> r.value == if b.Some? then b.value else s.value)
      && (r == Err(Unresolved) <==> b.None? && s.None?)
  {
    var cands := Candidates(cfg.ref, Fetch(c, w), w);
    assert cands == [None, BranchLeft(cfg.ref, c, w), CommitLeft(cfg.ref, c, w)];
    AgreedMeans(cands);
  }

  /** For a ref that does not look like a SHA only the branch counts. */
  lemma SilentTagFailureByName(cfg: Config, w: World, c: Cache)
    requires OnlyTagFetchFails(cfg, w, c) && !LooksLikeSha(cfg.ref)
    ensures var r := Pulled(cfg, w, Some(c)).1;
      && (r.Ok? <==> cfg.ref in c.branches || cfg.ref in Tracked(c, w))
      && (!r.Ok? ==> r == Err(Unresolved))
  {
    SilentTagFailure(cfg, w, c);
  }

  /** The remote has the tag at one commit; the pull reports success at another, the
      remote's branch of that name or, when the remote has none, one the cache kept. */
  lemma WrongCommitCounterexample(tagged: Commit, other: Commit, stale: bool) returns (cfg: Config, w: World, c: Cache)
    requires tagged != other
    ensures cfg.ref in w.remote.tags && w.remote.tags[cfg.ref] == tagged
    ensures stale ==> cfg.ref !in w.remote.branches
    ensures Pulled(cfg, w, Some(c)).1 == Ok(other)
  {
    var kept := map["v1" := other];
    cfg := Config("v1", "", false);
    var remote := Remote(map["v1" := tagged], if stale then map[] else kept);
    w := World(remote, true, true, true, false, true, true, true, {}, {}, {}, None);
    c := Cache(map[], if stale then kept else map[], None, {}, None);
    SilentTagFailure(cfg, w, c);
  }

  /** A rejected name leaves the cache untouched, even with Force. */
  lemma InvalidRefTouchesNothing(cfg: Config, w: World, cache: Option<Cache>)
    ensures Pulled(cfg, w, cache).1 == Err(InvalidRef) <==> !(CheckRefName(cfg.ref) && CheckRefName(cfg.branch))
    ensures Pulled(cfg, w, cache).1 == Err(InvalidRef) ==> Pulled(cfg, w, cache).0 == cache
  {
    var present := if cfg.force then None else cache;
    if cfg.ref != "" {
      var c := if present.Some? then Some(FetchPinnedTag(cfg, Fetch(present.value, w), w)) else Clone(cfg, w);
      if c.Some? {
        AgreedMeans(Candidates(cfg.ref, c.value, w));
      }
    }
  }

  /** Force is what gives a pin up: it follows the remote's tag. */
  lemma ForceReleasesThePin(cfg: Config, w: World, cache: Option<Cache>)
    requires cfg.ref != "" && cfg.force && cfg.ref in w.remote.tags
    ensures Pulled(cfg, w, cache).1.Ok? ==> Pulled(cfg, w, cache).1 == Ok(w.remote.tags[cfg.ref])
  {
    NewTagIsTheRemotes(cfg, w, cache);
  }
}
