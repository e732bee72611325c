/** The outputs sweep of runtime-pi/publish.ts. */
module OutputsSweep {
  /*
    At the end of a run up to three workers share a cursor, the set of published keys, the map of
    published sources and the result lists, and interleave at every `await`. One function below is
    one block of code between two awaits.
   */

  import opened Orders
  import opened Counting

  /** What an entry turns out to be: `lstat`, then the canonical path and digest of a regular file. */
  datatype Look =
    | StatFails
    | Symlink
    | NotAFile
    | File(size: nat, source: string, sha: string)

  datatype Entry = Entry(rel: string, look: Look)

  datatype Config = Config(entries: seq<Entry>, maxFileBytes: nat, sanitize: string -> string)

  datatype Reason = AlreadyPublished | Hidden | SymbolicLink | Oversized | EmptyDirOrOther
  datatype Code = FileTooLarge | QuotaExceeded | Conflict | UploadFailed

  datatype Skip = Skip(entry: nat, reason: Reason)
  datatype Failure = Failure(entry: nat, code: Code)

  datatype Worker =
    | Idle
    | Statting(i: nat)
    | Hashing(i: nat)
    | Uploading(i: nat)   // its key is reserved
    | Stored(i: nat)      // the uploader has recorded the response
    | Emitting(i: nat)    // listed as published
    | Exited
    | Thrown(i: nat)      // realpath or the digest threw: the whole sweep rejects

  datatype State = State(
    cursor: nat, keys: set<string>, hashes: map<string, string>,
    published: seq<nat>, skipped: seq<Skip>, failed: seq<Failure>, workers: seq<Worker>)

  const CONCURRENCY := 3

  function Min(x: nat, y: nat): nat { if x <= y then x else y }

  function Start(c: Config, keys: set<string>, hashes: map<string, string>): State {
    State(0, keys, hashes, [], [], [], seq(Min(CONCURRENCY, |c.entries|), _ => Idle))
  }

  /** Some segment of the path starts with a dot; `start` says a segment starts here. */
  predicate HiddenFrom(rel: string, start: bool) {
    rel != [] && ((start && rel[0] == '.') || HiddenFrom(rel[1..], rel[0] == '/'))
  }

  predicate HiddenPath(rel: string) {
    HiddenFrom(rel, true)
  }

  function Basename(rel: string): string {
    if '/' !in rel then rel else Basename(rel[1..])
  }

  function Key(sha: string, name: string): string {
    sha + ":" + name
  }

  /** The dedup identity of a regular file: its digest and the name the server will store. */
  function KeyOf(c: Config, i: nat): string
    requires i < |c.entries| && c.entries[i].look.File?
  {
    Key(c.entries[i].look.sha, c.sanitize(Basename(c.entries[i].rel)))
  }

  /** A digest holds no `:`, so a key determines the digest and the name. */
  lemma KeyInjective(sha: string, name: string, sha': string, name': string)
    requires ':' !in sha && ':' !in sha' && Key(sha, name) == Key(sha', name')
    ensures sha == sha' && name == name'
  {
    var k := Key(sha, name);
    FirstColon(sha, name);
    FirstColon(sha', name');
    assert sha == k[..|sha|] && sha' == k[..|sha'|];
    assert name == k[|sha| + 1..] && name' == k[|sha'| + 1..];
  }

  lemma FirstColon(sha: string, name: string)
    requires ':' !in sha
    ensures Key(sha, name)[|sha|] == ':' && forall i :: 0 <= i < |sha| ==> Key(sha, name)[i] != ':'
  {
  }

  // ---------- the blocks between two awaits ----------

  /** How the awaited call came back. */
  datatype Outcome = Ok | Err(code: Code) | Throws

  predicate Enabled(s: State, w: nat, o: Outcome) {
    && w < |s.workers|
    && match s.workers[w]
       case Idle | Statting(_) | Stored(_) | Emitting(_) => o.Ok?
       case Hashing(_) => o.Ok? || o.Throws?
       case Uploading(_) => o.Ok? || o.Err?
       case Exited | Thrown(_) => false
  }

  function Go(s: State, w: nat, to: Worker): State
    requires w < |s.workers|
  {
    s.(workers := s.workers[w := to])
  }

  function SkipEntry(s: State, w: nat, i: nat, reason: Reason): State
    requires w < |s.workers|
  {
    Go(s, w, Idle).(skipped := s.skipped + [Skip(i, reason)])
  }

  function FailEntry(s: State, w: nat, i: nat, code: Code): State
    requires w < |s.workers|
  {
    Go(s, w, Idle).(failed := s.failed + [Failure(i, code)])
  }

  function Take(c: Config, s: State, w: nat): State
    requires w < |s.workers|
  {
    if s.cursor >= |c.entries| then Go(s, w, Exited)
    else
      var i := s.cursor;
      var t := s.(cursor := i + 1);
      if HiddenPath(c.entries[i].rel) then SkipEntry(t, w, i, Hidden) else Go(t, w, Statting(i))
  }

  function Classify(c: Config, s: State, w: nat, i: nat): State
    requires w < |s.workers| && i < |c.entries|
  {
    match c.entries[i].look
    case StatFails => FailEntry(s, w, i, UploadFailed)
    case Symlink => SkipEntry(s, w, i, SymbolicLink)
    case NotAFile => SkipEntry(s, w, i, EmptyDirOrOther)
    case File(size, _, _) =>
      if size > c.maxFileBytes then SkipEntry(s, w, i, Oversized) else Go(s, w, Hashing(i))
  }

  /** Check the source and the key, and reserve the key, with no await in between. */
  function Reserve(c: Config, s: State, w: nat, i: nat): State
    requires w < |s.workers| && i < |c.entries| && c.entries[i].look.File?
  {
    var f := c.entries[i].look;
    if f.source in s.hashes && s.hashes[f.source] == f.sha then SkipEntry(s, w, i, AlreadyPublished)
    else if KeyOf(c, i) in s.keys then SkipEntry(s, w, i, AlreadyPublished)
    else Go(s, w, Uploading(i)).(keys := s.keys + {KeyOf(c, i)})
  }

  /** The uploader records the identity the server returns: the digest and name that were reserved. */
  function Respond(c: Config, s: State, w: nat, i: nat): State
    requires w < |s.workers| && i < |c.entries| && c.entries[i].look.File?
  {
    var f := c.entries[i].look;
    Go(s, w, Stored(i)).(keys := s.keys + {KeyOf(c, i)}, hashes := s.hashes[f.source := f.sha])
  }

  function RollBack(c: Config, s: State, w: nat, i: nat, code: Code): State
    requires w < |s.workers| && i < |c.entries| && c.entries[i].look.File?
  {
    FailEntry(s, w, i, code).(keys := s.keys - {KeyOf(c, i)})
  }

  /** A worker past `lstat` holds a regular file. */
  predicate WellFormed(c: Config, s: State) {
    && s.cursor <= |c.entries|
    && forall w :: 0 <= w < |s.workers| ==>
         match s.workers[w]
         case Idle | Exited => true
         case Statting(i) => i < |c.entries| && !HiddenPath(c.entries[i].rel)
         case Hashing(i) => Regular(c, i)
         case Uploading(i) => Regular(c, i)
         case Stored(i) => Regular(c, i)
         case Emitting(i) => Regular(c, i)
         case Thrown(i) => Regular(c, i)
  }

  /** A file the sweep owes its caller: not hidden, not a link, within the per-file cap. */
  predicate Regular(c: Config, i: nat) {
    && i < |c.entries| && !HiddenPath(c.entries[i].rel)
    && c.entries[i].look.File? && c.entries[i].look.size <= c.maxFileBytes
  }

  function Step(c: Config, s: State, w: nat, o: Outcome): State
    requires WellFormed(c, s) && Enabled(s, w, o)
  {
    match s.workers[w]
    case Idle => Take(c, s, w)
    case Statting(i) => Classify(c, s, w, i)
    case Hashing(i) => if o.Throws? then Go(s, w, Thrown(i)) else Reserve(c, s, w, i)
    case Uploading(i) => if o.Err? then RollBack(c, s, w, i, o.code) else Respond(c, s, w, i)
    case Stored(i) => Go(s, w, Emitting(i)).(published := s.published + [i])
    case Emitting(_) => Go(s, w, Idle)
  }

  // ---------- bookkeeping ----------

  function Itself(): nat -> Option<nat> { (i: nat) => Some(i) }
  function SkippedEntry(): Skip -> Option<nat> { (r: Skip) => Some(r.entry) }
  function FailedEntry(): Failure -> Option<nat> { (r: Failure) => Some(r.entry) }

  /** The entry a worker has taken and no list holds yet. */
  function InHand(): Worker -> Option<nat> {
    (w: Worker) => match w
         case Statting(i) => Some(i)
         case Hashing(i) => Some(i)
         case Uploading(i) => Some(i)
         case Stored(i) => Some(i)
         case Thrown(i) => Some(i)
         case _ => None
  }

  /** The key a worker has reserved or stored and the published list does not show yet. */
  function KeyInHand(c: Config): Worker -> Option<string> {
    (w: Worker) => match w
         case Uploading(i) => if Regular(c, i) then Some(KeyOf(c, i)) else None
         case Stored(i) => if Regular(c, i) then Some(KeyOf(c, i)) else None
         case _ => None
  }

  function KeyPublished(c: Config): nat -> Option<string> {
    (i: nat) => if Regular(c, i) then Some(KeyOf(c, i)) else None
  }

  function Listings(s: State, i: nat): nat {
    Count(Itself(), s.published, i) + Count(SkippedEntry(), s.skipped, i) + Count(FailedEntry(), s.failed, i)
  }

  /** Every entry taken is in one worker's hand or in one list, once. */
  ghost predicate Conserved(s: State) {
    forall i: nat :: Count(InHand(), s.workers, i) + Listings(s, i) == One(i < s.cursor)
  }

  /**
    The key set is exactly the initial keys, the keys in hand and the keys published here, each
    held once: no key is uploaded by two workers or published twice, and giving one back takes no
    other key away.
   */
  ghost predicate KeysExact(c: Config, keys0: set<string>, s: State) {
    forall k :: One(k in s.keys)
      == One(k in keys0) + Count(KeyInHand(c), s.workers, k) + Count(KeyPublished(c), s.published, k)
  }

  /** Entry `j` was stored by this sweep. */
  ghost predicate StoredHere(s: State, j: nat) {
    j in s.published || exists w :: 0 <= w < |s.workers| && s.workers[w] == Stored(j)
  }

  /** The bytes of `i` are recorded for its source, from before the sweep or by it. */
  ghost predicate SourceRecorded(c: Config, hashes0: map<string, string>, s: State, i: nat)
    requires Regular(c, i)
  {
    var f := c.entries[i].look;
    || (f.source in hashes0 && hashes0[f.source] == f.sha)
    || exists j: nat :: StoredHere(s, j) && Regular(c, j)
                   && c.entries[j].look.source == f.source && c.entries[j].look.sha == f.sha
  }

  /** An upload of the same key was abandoned. */
  ghost predicate KeyFailed(c: Config, s: State, i: nat)
    requires Regular(c, i)
  {
    exists r :: r in s.failed && Regular(c, r.entry) && KeyOf(c, r.entry) == KeyOf(c, i)
  }

  ghost predicate SourcesTruthful(c: Config, hashes0: map<string, string>, s: State) {
    forall src :: src in s.hashes ==>
      || (src in hashes0 && hashes0[src] == s.hashes[src])
      || exists j: nat :: StoredHere(s, j) && Regular(c, j)
                     && c.entries[j].look.source == src && c.entries[j].look.sha == s.hashes[src]
  }

  /** Every skip says why, and an `already_published` one is accounted for. */
  ghost predicate SkipTruthful(c: Config, hashes0: map<string, string>, s: State, r: Skip) {
    && r.entry < |c.entries|
    && match r.reason
       case Hidden => HiddenPath(c.entries[r.entry].rel)
       case SymbolicLink => c.entries[r.entry].look.Symlink?
       case EmptyDirOrOther => c.entries[r.entry].look.NotAFile?
       case Oversized => c.entries[r.entry].look.File? && c.entries[r.entry].look.size > c.maxFileBytes
       case AlreadyPublished =>
         && Regular(c, r.entry)
         && (KeyOf(c, r.entry) in s.keys || SourceRecorded(c, hashes0, s, r.entry) || KeyFailed(c, s, r.entry))
  }

  ghost predicate Inv(c: Config, keys0: set<string>, hashes0: map<string, string>, s: State) {
    && WellFormed(c, s)
    && |s.workers| == Min(CONCURRENCY, |c.entries|)
    && ExitsWhenDone(c, s)
    && Conserved(s)
    && KeysExact(c, keys0, s)
    && OnlyRegularPublished(c, s)
    && SourcesTruthful(c, hashes0, s)
    && (forall r :: r in s.skipped ==> SkipTruthful(c, hashes0, s, r))
  }

  // ---------- every step keeps the invariant ----------

  /** One step's effect on the books: the worker's own slot, and at most one listing of its entry. */
  lemma StepBooks(c: Config, s: State, w: nat, o: Outcome)
    requires WellFormed(c, s) && Enabled(s, w, o)
    ensures var t := Step(c, s, w, o);
            && |t.workers| == |s.workers| && t.workers == s.workers[w := t.workers[w]]
            && (t.published == s.published || (s.workers[w].Stored? && t.published == s.published + [s.workers[w].i]))
  {
  }

  lemma ListingsSkip(s: State, t: State, r: Skip, x: nat)
    requires t.published == s.published && t.failed == s.failed && t.skipped == s.skipped + [r]
    ensures Listings(t, x) == Listings(s, x) + One(r.entry == x)
  {
    CountSnoc(SkippedEntry(), s.skipped, r, x);
  }

  lemma ListingsFailure(s: State, t: State, r: Failure, x: nat)
    requires t.published == s.published && t.skipped == s.skipped && t.failed == s.failed + [r]
    ensures Listings(t, x) == Listings(s, x) + One(r.entry == x)
  {
    CountSnoc(FailedEntry(), s.failed, r, x);
  }

  /** The entry this step lists. */
  function NewlyListed(c: Config, s: State, w: nat, o: Outcome): Option<nat>
    requires WellFormed(c, s) && Enabled(s, w, o)
  {
    match s.workers[w]
    case Idle =>
      if s.cursor < |c.entries| && HiddenPath(c.entries[s.cursor].rel) then Some(s.cursor) else None
    case Statting(i) => if Regular(c, i) then None else Some(i)
    case Hashing(i) => if Step(c, s, w, o).workers[w].Idle? then Some(i) else None
    case Uploading(i) => if o.Err? then Some(i) else None
    case Stored(i) => Some(i)
    case Emitting(_) => None
  }

  lemma StepListings(c: Config, s: State, w: nat, o: Outcome, x: nat)
    requires WellFormed(c, s) && Enabled(s, w, o)
    ensures Listings(Step(c, s, w, o), x) == Listings(s, x) + One(NewlyListed(c, s, w, o) == Some(x))
  {
    var t := Step(c, s, w, o);
    match s.workers[w] {
      case Idle =>
        if t.skipped != s.skipped { ListingsSkip(s, t, Skip(s.cursor, Hidden), x); }
      case Statting(i) =>
        if c.entries[i].look.StatFails? {
          ListingsFailure(s, t, Failure(i, UploadFailed), x);
        } else if !Regular(c, i) {
          ListingsSkip(s, t, t.skipped[|s.skipped|], x);
        }
      case Hashing(i) =>
        if t.workers[w].Idle? { ListingsSkip(s, t, Skip(i, AlreadyPublished), x); }
      case Uploading(i) =>
        if o.Err? { ListingsFailure(s, t, Failure(i, o.code), x); }
      case Stored(i) =>
        CountSnoc(Itself(), s.published, i, x);
      case Emitting(_) =>
    }
  }

  /** What is in hand or listed grows only by the entry the step takes from the queue. */
  lemma StepHands(c: Config, s: State, w: nat, o: Outcome, x: nat)
    requires WellFormed(c, s) && Enabled(s, w, o)
    ensures var t := Step(c, s, w, o);
            One(NewlyListed(c, s, w, o) == Some(x)) + One(InHand()(t.workers[w]) == Some(x)) + One(x < s.cursor)
              == One(InHand()(s.workers[w]) == Some(x)) + One(x < t.cursor)
  {
  }

  lemma ConservedStep(c: Config, s: State, w: nat, o: Outcome)
    requires WellFormed(c, s) && Enabled(s, w, o) && Conserved(s)
    ensures Conserved(Step(c, s, w, o))
  {
    var t := Step(c, s, w, o);
    StepBooks(c, s, w, o);
    forall x: nat ensures Count(InHand(), t.workers, x) + Listings(t, x) == One(x < t.cursor) {
      assert Count(InHand(), s.workers, x) + Listings(s, x) == One(x < s.cursor);
      StepListings(c, s, w, o, x);
      StepHands(c, s, w, o, x);
      CountUpdate(InHand(), s.workers, w, t.workers[w], x);
    }
  }

  /** The key set and the claims on it change together. */
  lemma StepKeys(c: Config, s: State, w: nat, o: Outcome, k: string)
    requires WellFormed(c, s) && Enabled(s, w, o)
    requires KeyInHand(c)(s.workers[w]) == Some(k) ==> k in s.keys
    ensures var t := Step(c, s, w, o);
            One(k in t.keys) + One(KeyInHand(c)(s.workers[w]) == Some(k))
              == One(k in s.keys) + One(KeyInHand(c)(t.workers[w]) == Some(k)) + One(NewlyShown(c, s, w) == Some(k))
  {
  }

  function NewlyShown(c: Config, s: State, w: nat): Option<string>
    requires w < |s.workers|
  {
    if s.workers[w].Stored? then KeyPublished(c)(s.workers[w].i) else None
  }

  lemma StepShown(c: Config, s: State, w: nat, o: Outcome, k: string)
    requires WellFormed(c, s) && Enabled(s, w, o)
    ensures Count(KeyPublished(c), Step(c, s, w, o).published, k)
            == Count(KeyPublished(c), s.published, k) + One(NewlyShown(c, s, w) == Some(k))
  {
    StepBooks(c, s, w, o);
    if s.workers[w].Stored? { CountSnoc<nat, string>(KeyPublished(c), s.published, s.workers[w].i, k); }
  }

  lemma KeysStep(c: Config, keys0: set<string>, s: State, w: nat, o: Outcome)
    requires WellFormed(c, s) && Enabled(s, w, o) && KeysExact(c, keys0, s)
    ensures KeysExact(c, keys0, Step(c, s, w, o))
  {
    var t := Step(c, s, w, o);
    StepBooks(c, s, w, o);
    forall k ensures One(k in t.keys)
        == One(k in keys0) + Count(KeyInHand(c), t.workers, k) + Count(KeyPublished(c), t.published, k)
    {
      assert One(k in s.keys)
        == One(k in keys0) + Count(KeyInHand(c), s.workers, k) + Count(KeyPublished(c), s.published, k);
      if KeyInHand(c)(s.workers[w]) == Some(k) { CountHas(KeyInHand(c), s.workers, w, k); }
      StepKeys(c, s, w, o, k);
      StepShown(c, s, w, o, k);
      CountUpdate(KeyInHand(c), s.workers, w, t.workers[w], k);
    }
  }

  /** Nothing that accounts for an entry is lost. */
  ghost predicate KeepsAccounts(c: Config, s: State, t: State) {
    && (forall j: nat :: StoredHere(s, j) ==> StoredHere(t, j))
    && (forall r :: r in s.failed ==> r in t.failed)
    && (forall k :: k in s.keys && k !in t.keys ==>
         exists r :: r in t.failed && Regular(c, r.entry) && KeyOf(c, r.entry) == k)
  }

  lemma StepKeepsAccounts(c: Config, s: State, w: nat, o: Outcome)
    requires WellFormed(c, s) && Enabled(s, w, o)
    ensures KeepsAccounts(c, s, Step(c, s, w, o))
  {
    var t := Step(c, s, w, o);
    forall j: nat | StoredHere(s, j) ensures StoredHere(t, j) {
      if j in s.published {
        assert j in t.published;
      } else {
        var v :| 0 <= v < |s.workers| && s.workers[v] == Stored(j);
        if v != w { assert t.workers[v] == Stored(j); }
      }
    }
    forall k | k in s.keys && k !in t.keys
      ensures exists r :: r in t.failed && Regular(c, r.entry) && KeyOf(c, r.entry) == k
    {
      var r := Failure(s.workers[w].i, o.code);
      assert r in t.failed && Regular(c, r.entry) && KeyOf(c, r.entry) == k;
    }
  }

  lemma SkipStaysTruthful(c: Config, hashes0: map<string, string>, s: State, t: State, r: Skip)
    requires KeepsAccounts(c, s, t) && SkipTruthful(c, hashes0, s, r)
    ensures SkipTruthful(c, hashes0, t, r)
  {
  }

  lemma SourcesStep(c: Config, hashes0: map<string, string>, s: State, w: nat, o: Outcome)
    requires WellFormed(c, s) && Enabled(s, w, o) && SourcesTruthful(c, hashes0, s)
    ensures SourcesTruthful(c, hashes0, Step(c, s, w, o))
  {
    var t := Step(c, s, w, o);
    StepKeepsAccounts(c, s, w, o);
    forall src | src in t.hashes
      ensures || (src in hashes0 && hashes0[src] == t.hashes[src])
              || exists j: nat :: StoredHere(t, j) && Regular(c, j)
                   && c.entries[j].look.source == src && c.entries[j].look.sha == t.hashes[src]
    {
      if src in s.hashes && s.hashes[src] == t.hashes[src] {
        if !(src in hashes0 && hashes0[src] == s.hashes[src]) {
          var j: nat :| StoredHere(s, j) && Regular(c, j)
                        && c.entries[j].look.source == src && c.entries[j].look.sha == s.hashes[src];
          assert StoredHere(t, j);
        }
      } else {
        var j := s.workers[w].i;
        RecordedByResponse(c, s, w, o, src);
        assert StoredHere(t, j);
      }
    }
  }

  lemma RecordedByResponse(c: Config, s: State, w: nat, o: Outcome, src: string)
    requires WellFormed(c, s) && Enabled(s, w, o) && src in Step(c, s, w, o).hashes
    requires !(src in s.hashes && s.hashes[src] == Step(c, s, w, o).hashes[src])
    ensures s.workers[w].Uploading? && Regular(c, s.workers[w].i)
    ensures var t := Step(c, s, w, o); var j := s.workers[w].i;
            t.workers[w] == Stored(j) && c.entries[j].look.source == src && c.entries[j].look.sha == t.hashes[src]
  {
  }

  lemma SkipsStep(c: Config, hashes0: map<string, string>, s: State, w: nat, o: Outcome)
    requires WellFormed(c, s) && Enabled(s, w, o) && SourcesTruthful(c, hashes0, s)
    requires forall r :: r in s.skipped ==> SkipTruthful(c, hashes0, s, r)
    ensures forall r :: r in Step(c, s, w, o).skipped ==> SkipTruthful(c, hashes0, Step(c, s, w, o), r)
  {
    var t := Step(c, s, w, o);
    StepKeepsAccounts(c, s, w, o);
    forall r | r in t.skipped ensures SkipTruthful(c, hashes0, t, r) {
      if r in s.skipped { SkipStaysTruthful(c, hashes0, s, t, r); }
      else {
        assert r == t.skipped[|s.skipped|];
        assert SkipTruthful(c, hashes0, s, r);
        SkipStaysTruthful(c, hashes0, s, t, r);
      }
    }
  }

  lemma WellFormedStep(c: Config, s: State, w: nat, o: Outcome)
    requires WellFormed(c, s) && Enabled(s, w, o)
    ensures WellFormed(c, Step(c, s, w, o))
    ensures |Step(c, s, w, o).workers| == |s.workers|
  {
  }

  ghost predicate OnlyRegularPublished(c: Config, s: State) {
    forall i :: i in s.published ==> Regular(c, i)
  }

  /** A worker leaves when the queue is empty. */
  ghost predicate ExitsWhenDone(c: Config, s: State) {
    forall w :: 0 <= w < |s.workers| && s.workers[w].Exited? ==> s.cursor == |c.entries|
  }

  lemma ListsStep(c: Config, s: State, w: nat, o: Outcome)
    requires WellFormed(c, s) && Enabled(s, w, o) && OnlyRegularPublished(c, s) && ExitsWhenDone(c, s)
    ensures OnlyRegularPublished(c, Step(c, s, w, o)) && ExitsWhenDone(c, Step(c, s, w, o))
  {
    StepBooks(c, s, w, o);
  }

  lemma StepKeepsInv(c: Config, keys0: set<string>, hashes0: map<string, string>, s: State, w: nat, o: Outcome)
    requires Inv(c, keys0, hashes0, s) && Enabled(s, w, o)
    ensures Inv(c, keys0, hashes0, Step(c, s, w, o))
  {
    WellFormedStep(c, s, w, o);
    ListsStep(c, s, w, o);
    ConservedStep(c, s, w, o);
    KeysStep(c, keys0, s, w, o);
    SourcesStep(c, hashes0, s, w, o);
    SkipsStep(c, hashes0, s, w, o);
  }

  // ---------- whole runs ----------

  datatype Event = Event(w: nat, o: Outcome)

  /** The interleaving `events` leads from `s` to `t`. */
  ghost predicate Reaches(c: Config, s: State, events: seq<Event>, t: State)
    decreases |events|
  {
    if events == [] then s == t
    else
      && WellFormed(c, s) && Enabled(s, events[0].w, events[0].o)
      && Reaches(c, Step(c, s, events[0].w, events[0].o), events[1..], t)
  }

  /** Every worker returned, so the sweep resolves; a worker that threw rejects it instead. */
  predicate Ended(s: State) {
    forall w :: 0 <= w < |s.workers| ==> s.workers[w].Exited?
  }

  lemma StartInv(c: Config, keys0: set<string>, hashes0: map<string, string>)
    ensures Inv(c, keys0, hashes0, Start(c, keys0, hashes0))
  {
    var s := Start(c, keys0, hashes0);
    forall i: nat ensures Count(InHand(), s.workers, i) == 0 {
      CountNone(InHand(), s.workers, i);
    }
    forall k ensures Count(KeyInHand(c), s.workers, k) == 0 {
      CountNone(KeyInHand(c), s.workers, k);
    }
  }

  lemma {:induction false} RunKeepsInv(c: Config, keys0: set<string>, hashes0: map<string, string>,
                                       s: State, events: seq<Event>, t: State)
    requires Inv(c, keys0, hashes0, s) && Reaches(c, s, events, t)
    ensures Inv(c, keys0, hashes0, t)
    decreases |events|
  {
    if events != [] {
      StepKeepsInv(c, keys0, hashes0, s, events[0].w, events[0].o);
      RunKeepsInv(c, keys0, hashes0, Step(c, s, events[0].w, events[0].o), events[1..], t);
    }
  }

  /** A state some interleaving of the sweep passes through. */
  ghost predicate Reachable(c: Config, keys0: set<string>, hashes0: map<string, string>, s: State) {
    exists events :: Reaches(c, Start(c, keys0, hashes0), events, s)
  }

  lemma ReachableInv(c: Config, keys0: set<string>, hashes0: map<string, string>, s: State)
    requires Reachable(c, keys0, hashes0, s)
    ensures Inv(c, keys0, hashes0, s)
  {
    var events :| Reaches(c, Start(c, keys0, hashes0), events, s);
    StartInv(c, keys0, hashes0);
    RunKeepsInv(c, keys0, hashes0, Start(c, keys0, hashes0), events, s);
  }

  /** At no point do two workers upload the same key, nor one a key published before. */
  lemma KeysInFlightDistinct(c: Config, keys0: set<string>, hashes0: map<string, string>, s: State, v: nat, w: nat)
    requires Reachable(c, keys0, hashes0, s) && v < |s.workers| && w < |s.workers| && v != w
    requires s.workers[w].Uploading? && Regular(c, s.workers[w].i)
    ensures s.workers[v].Uploading? && Regular(c, s.workers[v].i)
            ==> KeyOf(c, s.workers[v].i) != KeyOf(c, s.workers[w].i)
    ensures KeyOf(c, s.workers[w].i) !in keys0
    ensures forall j :: j in s.published && Regular(c, j) ==> KeyOf(c, j) != KeyOf(c, s.workers[w].i)
  {
    ReachableInv(c, keys0, hashes0, s);
    var f := KeyInHand(c);
    var k := KeyOf(c, s.workers[w].i);
    assert f(s.workers[w]) == Some(k);
    CountHas(f, s.workers, w, k);
    if f(s.workers[v]) == Some(k) {
      CountOnce(f, s.workers, if v < w then v else w, if v < w then w else v, k);
    }
    forall j | j in s.published && Regular(c, j) ensures KeyOf(c, j) != k {
      if KeyOf(c, j) == k {
        var i :| 0 <= i < |s.published| && s.published[i] == j;
        CountHas<nat, string>(KeyPublished(c), s.published, i, k);
      }
    }
  }

  /** A key published by the sweep stays in the set whatever is rolled back, and is published once. */
  lemma PublishedKeysStay(c: Config, keys0: set<string>, hashes0: map<string, string>, s: State, i: nat, j: nat)
    requires Reachable(c, keys0, hashes0, s) && i < j < |s.published|
    ensures Regular(c, s.published[i]) && Regular(c, s.published[j])
    ensures KeyOf(c, s.published[i]) in s.keys && KeyOf(c, s.published[i]) != KeyOf(c, s.published[j])
    ensures KeyOf(c, s.published[i]) !in keys0
  {
    ReachableInv(c, keys0, hashes0, s);
    assert s.published[i] in s.published && s.published[j] in s.published;
    var k := KeyOf(c, s.published[i]);
    CountHas<nat, string>(KeyPublished(c), s.published, i, k);
    if KeyOf(c, s.published[j]) == k { CountOnce<nat, string>(KeyPublished(c), s.published, i, j, k); }
  }

  // ---------- what a finished sweep reports ----------

  /** Each scanned entry is reported exactly once: published, skipped or failed. */
  lemma EveryEntryReportedOnce(c: Config, keys0: set<string>, hashes0: map<string, string>, t: State, i: nat)
    requires Reachable(c, keys0, hashes0, t) && Ended(t)
    ensures Listings(t, i) == One(i < |c.entries|)
  {
    ReachableInv(c, keys0, hashes0, t);
    CountNone(InHand(), t.workers, i);
    if |t.workers| > 0 { assert t.workers[0].Exited?; }
  }

  /** The final key set is the initial one and the keys of the published entries, nothing reserved. */
  lemma FinalKeys(c: Config, keys0: set<string>, hashes0: map<string, string>, t: State, k: string)
    requires Reachable(c, keys0, hashes0, t) && Ended(t)
    ensures k in t.keys <==> k in keys0 || exists j :: j in t.published && Regular(c, j) && KeyOf(c, j) == k
  {
    ReachableInv(c, keys0, hashes0, t);
    CountNone(KeyInHand(c), t.workers, k);
    if Count(KeyPublished(c), t.published, k) >= 1 {
      var i := CountFind<nat, string>(KeyPublished(c), t.published, k);
      assert t.published[i] in t.published;
    }
    if j :| j in t.published && Regular(c, j) && KeyOf(c, j) == k {
      var i :| 0 <= i < |t.published| && t.published[i] == j;
      CountHas<nat, string>(KeyPublished(c), t.published, i, k);
    }
  }

  /**
    What became of a file the sweep owes its caller: its key is durable, its bytes were recorded
    for its source, or an upload of the same key was abandoned and is reported as failed.
   */
  lemma RegularFileAccounted(c: Config, keys0: set<string>, hashes0: map<string, string>, t: State, i: nat)
    requires Reachable(c, keys0, hashes0, t) && Ended(t) && Regular(c, i)
    ensures KeyOf(c, i) in t.keys || SourceRecorded(c, hashes0, t, i) || KeyFailed(c, t, i)
  {
    ReachableInv(c, keys0, hashes0, t);
    EveryEntryReportedOnce(c, keys0, hashes0, t, i);
    if Count(Itself(), t.published, i) >= 1 {
      var p := CountFind(Itself(), t.published, i);
      assert i in t.published;
      FinalKeys(c, keys0, hashes0, t, KeyOf(c, i));
    } else if Count(SkippedEntry(), t.skipped, i) >= 1 {
      var p := CountFind(SkippedEntry(), t.skipped, i);
      assert t.skipped[p] in t.skipped;
    } else {
      var p := CountFind(FailedEntry(), t.failed, i);
      assert t.failed[p] in t.failed;
    }
  }

  // ---------- the terminal summary ----------

  datatype Status = Complete | Partial
  datatype Loss = Loss(name: string, code: string)
  datatype Summary = Summary(status: Status, published: nat, failed: seq<Loss>)

  const MAX_FAILED := 1000
  const MAX_NAME := 512
  const MAX_CODE := 64

  function CodeText(code: Code): string {
    match code
    case FileTooLarge => "file_too_large"
    case QuotaExceeded => "quota_exceeded"
    case Conflict => "conflict"
    case UploadFailed => "upload_failed"
  }

  function Prefix<T>(s: seq<T>, n: nat): seq<T> {
    if |s| <= n then s else s[..n]
  }

  function Named(c: Config, i: nat): string {
    if i < |c.entries| then c.entries[i].rel else ""
  }

  function Oversize(skipped: seq<Skip>): seq<nat> {
    if skipped == [] then []
    else
      var n := |skipped| - 1;
      Oversize(skipped[..n]) + if skipped[n].reason.Oversized? then [skipped[n].entry] else []
  }

  /** The failures as listed, then the files over the cap. */
  function Losses(c: Config, s: State): (all: seq<Loss>)
    ensures |all| == |s.failed| + |Oversize(s.skipped)|
  {
    seq(|s.failed|, k requires 0 <= k < |s.failed| =>
          Loss(Named(c, s.failed[k].entry), CodeText(s.failed[k].code)))
    + var over := Oversize(s.skipped);
      seq(|over|, k requires 0 <= k < |over| => Loss(Named(c, over[k]), CodeText(FileTooLarge)))
  }

  function Summarize(c: Config, s: State): (r: Summary)
    ensures r.status == Complete <==> s.failed == [] && Oversize(s.skipped) == []
    ensures r.published == |s.published| && |r.failed| == Min(MAX_FAILED, |s.failed| + |Oversize(s.skipped)|)
    ensures forall k :: 0 <= k < |r.failed| ==>
      && |r.failed[k].name| <= MAX_NAME && |r.failed[k].code| <= MAX_CODE
      && r.failed[k].name <= Losses(c, s)[k].name && r.failed[k].code <= Losses(c, s)[k].code
  {
    var all := Losses(c, s);
    var kept := Prefix(all, MAX_FAILED);
    Summary(if |all| > 0 then Partial else Complete, |s.published|,
            seq(|kept|, k requires 0 <= k < |kept| =>
                  Loss(Prefix(kept[k].name, MAX_NAME), Prefix(kept[k].code, MAX_CODE))))
  }

  lemma {:induction false} OversizeFinds(skipped: seq<Skip>, r: Skip)
    requires r in skipped && r.reason.Oversized?
    ensures r.entry in Oversize(skipped)
  {
    var n := |skipped| - 1;
    if r in skipped[..n] { OversizeFinds(skipped[..n], r); } else { assert r == skipped[n]; }
  }

  /**
    No silent loss: when the summary says `complete`, the key of every visible regular file is in
    the final key set, or its bytes are recorded for its source; no such file was over the cap.
   */
  lemma CompleteMeansStored(c: Config, keys0: set<string>, hashes0: map<string, string>, t: State, i: nat)
    requires Reachable(c, keys0, hashes0, t) && Ended(t)
    requires Summarize(c, t).status == Complete
    requires i < |c.entries| && !HiddenPath(c.entries[i].rel) && c.entries[i].look.File?
    ensures Regular(c, i)
    ensures KeyOf(c, i) in t.keys || SourceRecorded(c, hashes0, t, i)
  {
    assert |Losses(c, t)| == 0;
    assert t.failed == [] && Oversize(t.skipped) == [];
    ReachableInv(c, keys0, hashes0, t);
    EveryEntryReportedOnce(c, keys0, hashes0, t, i);
    if Count(Itself(), t.published, i) >= 1 {
      var p := CountFind(Itself(), t.published, i);
      assert i in t.published;
    } else {
      var p := CountFind(SkippedEntry(), t.skipped, i);
      var r := t.skipped[p];
      assert r in t.skipped && SkipTruthful(c, hashes0, t, r);
      if r.reason.Oversized? { OversizeFinds(t.skipped, r); }
    }
    RegularFileAccounted(c, keys0, hashes0, t, i);
  }

  /** Nor is a `partial` summary raised for nothing: some entry is reported failed or over the cap. */
  lemma PartialMeansLoss(c: Config, t: State)
    ensures Summarize(c, t).status == Partial <==> t.failed != [] || exists r :: r in t.skipped && r.reason.Oversized?
  {
    if r :| r in t.skipped && r.reason.Oversized? { OversizeFinds(t.skipped, r); }
    if Oversize(t.skipped) != [] { OversizeFound(t.skipped); }
  }

  lemma {:induction false} OversizeFound(skipped: seq<Skip>)
    requires Oversize(skipped) != []
    ensures exists r :: r in skipped && r.reason.Oversized?
  {
    var n := |skipped| - 1;
    if skipped[n].reason.Oversized? { assert skipped[n] in skipped; }
    else {
      OversizeFound(skipped[..n]);
      var r :| r in skipped[..n] && r.reason.Oversized?;
      assert r in skipped;
    }
  }

  // ---------- the pool ends ----------

  function Rank(w: Worker): nat {
    match w
    case Statting(_) => 6
    case Hashing(_) => 5
    case Uploading(_) => 4
    case Stored(_) => 3
    case Emitting(_) => 2
    case Idle => 1
    case Exited | Thrown(_) => 0
  }

  function Ranks(workers: seq<Worker>): nat {
    if workers == [] then 0 else Ranks(workers[..|workers| - 1]) + Rank(workers[|workers| - 1])
  }

  lemma {:induction false} RanksUpdate(workers: seq<Worker>, w: nat, to: Worker)
    requires w < |workers|
    ensures Ranks(workers[w := to]) + Rank(workers[w]) == Ranks(workers) + Rank(to)
  {
    var n := |workers| - 1;
    if w < n {
      assert workers[w := to][..n] == workers[..n][w := to];
      RanksUpdate(workers[..n], w, to);
    } else {
      assert workers[w := to][..n] == workers[..n];
    }
  }

  function Work(c: Config, s: State): nat
    requires s.cursor <= |c.entries|
  {
    7 * (|c.entries| - s.cursor) + Ranks(s.workers)
  }

  lemma StepRank(c: Config, s: State, w: nat, o: Outcome)
    requires WellFormed(c, s) && Enabled(s, w, o)
    ensures var t := Step(c, s, w, o);
            && w < |t.workers| && s.cursor <= t.cursor <= |c.entries|
            && Rank(t.workers[w]) < Rank(s.workers[w]) + 7 * (t.cursor - s.cursor)
  {
  }

  lemma StepWorks(c: Config, s: State, w: nat, o: Outcome)
    requires WellFormed(c, s) && Enabled(s, w, o)
    ensures Step(c, s, w, o).cursor <= |c.entries|
    ensures Work(c, Step(c, s, w, o)) < Work(c, s)
  {
    var t := Step(c, s, w, o);
    StepBooks(c, s, w, o);
    StepRank(c, s, w, o);
    RanksUpdate(s.workers, w, t.workers[w]);
  }

  /** No interleaving goes on for ever: at most seven blocks an entry, and one exit a worker. */
  lemma {:induction false} RunsEnd(c: Config, s: State, events: seq<Event>, t: State)
    requires WellFormed(c, s) && Reaches(c, s, events, t)
    ensures t.cursor <= |c.entries| && |events| + Work(c, t) <= Work(c, s)
    decreases |events|
  {
    if events != [] {
      var s' := Step(c, s, events[0].w, events[0].o);
      StepWorks(c, s, events[0].w, events[0].o);
      WellFormedStep(c, s, events[0].w, events[0].o);
      RunsEnd(c, s', events[1..], t);
    }
  }

  // ---------- runs put together ----------

  lemma {:induction false} ReachesSnoc(c: Config, s: State, events: seq<Event>, t: State, w: nat, o: Outcome)
    requires Reaches(c, s, events, t) && WellFormed(c, t) && Enabled(t, w, o)
    ensures Reaches(c, s, events + [Event(w, o)], Step(c, t, w, o))
    decreases |events|
  {
    var more := events + [Event(w, o)];
    if events == [] {
      assert more[1..] == [];
    } else {
      assert more[1..] == events[1..] + [Event(w, o)];
      ReachesSnoc(c, Step(c, s, events[0].w, events[0].o), events[1..], t, w, o);
    }
  }

  ghost predicate Leads(c: Config, s: State, t: State) {
    exists events :: Reaches(c, s, events, t)
  }

  lemma LeadsOn(c: Config, s: State, t: State, w: nat, o: Outcome)
    requires Leads(c, s, t) && WellFormed(c, t) && Enabled(t, w, o)
    ensures Leads(c, s, Step(c, t, w, o)) && WellFormed(c, Step(c, t, w, o))
  {
    var events :| Reaches(c, s, events, t);
    ReachesSnoc(c, s, events, t, w, o);
    WellFormedStep(c, t, w, o);
  }

  lemma LeadsHere(c: Config, s: State)
    ensures Leads(c, s, s)
  {
    assert Reaches(c, s, [], s);
  }

  /** `t` differs from `s` by the cursor and by what is listed as skipped or failed. */
  ghost predicate OnlyLists(s: State, t: State) {
    && t == s.(cursor := t.cursor, skipped := t.skipped, failed := t.failed)
    && (forall r :: r in s.skipped ==> r in t.skipped)
    && (forall r :: r in s.failed ==> r in t.failed)
  }

  /** As `OnlyLists`, the worker `w` having come back for the next entry. */
  ghost predicate Settles(s: State, t: State, w: nat)
    requires w < |s.workers|
  {
    OnlyLists(Go(s, w, Idle), t) && t.cursor == s.cursor
  }

  lemma FailUpload(c: Config, s0: State, s: State, w: nat, i: nat) returns (t: State)
    requires Leads(c, s0, s) && WellFormed(c, s) && w < |s.workers| && s.workers[w] == Uploading(i)
    ensures Leads(c, s0, t) && WellFormed(c, t) && t == RollBack(c, s, w, i, UploadFailed)
  {
    t := Step(c, s, w, Err(UploadFailed));
    LeadsOn(c, s0, s, w, Err(UploadFailed));
  }

  lemma SettleHashed(c: Config, s0: State, s: State, w: nat, i: nat) returns (t: State)
    requires Leads(c, s0, s) && WellFormed(c, s) && w < |s.workers| && s.workers[w] == Hashing(i)
    ensures Leads(c, s0, t) && WellFormed(c, t) && Settles(s, t, w)
  {
    t := Step(c, s, w, Ok);
    LeadsOn(c, s0, s, w, Ok);
    if t.workers[w].Uploading? {
      t := FailUpload(c, s0, t, w, i);
      assert s.keys + {KeyOf(c, i)} - {KeyOf(c, i)} == s.keys;
      assert t.workers == Go(s, w, Idle).workers;
    }
  }

  lemma SettleTaken(c: Config, s0: State, s: State, w: nat, i: nat) returns (t: State)
    requires Leads(c, s0, s) && WellFormed(c, s) && w < |s.workers| && s.workers[w] == Statting(i)
    ensures Leads(c, s0, t) && WellFormed(c, t) && Settles(s, t, w)
  {
    t := Step(c, s, w, Ok);
    LeadsOn(c, s0, s, w, Ok);
    if t.workers[w].Hashing? {
      var u := t;
      t := SettleHashed(c, s0, u, w, i);
      assert Go(u, w, Idle).workers == Go(s, w, Idle).workers;
    }
  }

  /** A worker deals with the next entry, its upload failing. */
  lemma PassEntry(c: Config, s0: State, s: State, w: nat) returns (t: State)
    requires Leads(c, s0, s) && WellFormed(c, s) && w < |s.workers| && s.workers[w].Idle?
    requires s.cursor < |c.entries|
    ensures Leads(c, s0, t) && WellFormed(c, t) && OnlyLists(s, t) && t.cursor == s.cursor + 1
  {
    t := Step(c, s, w, Ok);
    LeadsOn(c, s0, s, w, Ok);
    assert Go(t, w, Idle).workers == s.workers;
    if t.workers[w].Statting? { t := SettleTaken(c, s0, t, w, s.cursor); }
  }

  lemma {:induction false} PassUntil(c: Config, s0: State, s: State, w: nat, n: nat) returns (t: State)
    requires Leads(c, s0, s) && WellFormed(c, s) && w < |s.workers| && s.workers[w].Idle?
    requires s.cursor <= n <= |c.entries|
    ensures Leads(c, s0, t) && WellFormed(c, t) && OnlyLists(s, t) && t.cursor == n
    decreases n - s.cursor
  {
    t := s;
    if s.cursor < n {
      var u := PassEntry(c, s0, s, w);
      t := PassUntil(c, s0, u, w, n);
    }
  }

  /** A worker takes the next entry, a regular file, and hashes it. */
  lemma TakeRegular(c: Config, s0: State, s: State, w: nat) returns (t: State)
    requires Leads(c, s0, s) && WellFormed(c, s) && w < |s.workers| && s.workers[w].Idle?
    requires Regular(c, s.cursor)
    ensures Leads(c, s0, t) && WellFormed(c, t)
    ensures t == s.(cursor := s.cursor + 1, workers := s.workers[w := Hashing(s.cursor)])
  {
    var u := Step(c, s, w, Ok);
    LeadsOn(c, s0, s, w, Ok);
    t := Step(c, u, w, Ok);
    LeadsOn(c, s0, u, w, Ok);
    assert t.workers == s.workers[w := Hashing(s.cursor)];
  }

  /** The workers from `w` on find the queue empty. */
  lemma {:induction false} ExitAll(c: Config, s0: State, s: State, w: nat) returns (t: State)
    requires Leads(c, s0, s) && WellFormed(c, s) && s.cursor == |c.entries| && w <= |s.workers|
    requires forall v :: 0 <= v < |s.workers| ==> s.workers[v] == if v < w then Exited else Idle
    ensures Leads(c, s0, t) && Ended(t) && t == s.(workers := t.workers)
    decreases |s.workers| - w
  {
    t := s;
    if w < |s.workers| {
      var u := Step(c, s, w, Ok);
      LeadsOn(c, s0, s, w, Ok);
      t := ExitAll(c, s0, u, w + 1);
    }
  }

  // ---------- when `already_published` means already stored ----------

  /** The bytes of `i` are recorded for its source before the sweep. */
  predicate Recorded(c: Config, hashes0: map<string, string>, i: nat)
    requires Regular(c, i)
  {
    var f := c.entries[i].look;
    f.source in hashes0 && hashes0[f.source] == f.sha
  }

  /** A file the sweep has to upload, unless another entry of its key does. */
  predicate Due(c: Config, keys0: set<string>, hashes0: map<string, string>, i: nat) {
    Regular(c, i) && !Recorded(c, hashes0, i) && KeyOf(c, i) !in keys0
  }

  /** Two such files have the same bytes and the same stored name. */
  predicate Twins(c: Config, keys0: set<string>, hashes0: map<string, string>, i: nat, j: nat) {
    i < j && Due(c, keys0, hashes0, i) && Due(c, keys0, hashes0, j) && KeyOf(c, i) == KeyOf(c, j)
  }

  ghost predicate HasTwins(c: Config, keys0: set<string>, hashes0: map<string, string>) {
    exists i, j :: Twins(c, keys0, hashes0, i, j)
  }

  /** No file changes under the sweep: entries of one canonical source have one digest. */
  predicate SourcesSteady(c: Config) {
    forall i, j :: 0 <= i < |c.entries| && 0 <= j < |c.entries| && Regular(c, i) && Regular(c, j) ==>
      c.entries[i].look.source == c.entries[j].look.source ==> c.entries[i].look.sha == c.entries[j].look.sha
  }

  /** The bytes are stored under the key, or recorded for the source. */
  ghost predicate Durable(c: Config, hashes0: map<string, string>, t: State, i: nat)
    requires Regular(c, i)
  {
    KeyOf(c, i) in t.keys || SourceRecorded(c, hashes0, t, i)
  }

  /** A worker reserves the key of the next entry, which is due, and uploads. */
  lemma HoldDue(c: Config, s0: State, s: State, w: nat, i: nat) returns (t: State)
    requires Leads(c, s0, s) && WellFormed(c, s) && w < |s.workers| && s.workers[w].Idle?
    requires i == s.cursor && Due(c, s.keys, s.hashes, i)
    ensures Leads(c, s0, t) && WellFormed(c, t)
    ensures t == s.(cursor := i + 1, keys := s.keys + {KeyOf(c, i)}, workers := s.workers[w := Uploading(i)])
  {
    var u := TakeRegular(c, s0, s, w);
    t := Step(c, u, w, Ok);
    LeadsOn(c, s0, u, w, Ok);
    assert t.workers == s.workers[w := Uploading(i)];
  }

  /** A worker skips the next entry, its key being taken. */
  lemma SkipTaken(c: Config, s0: State, s: State, w: nat, j: nat) returns (t: State)
    requires Leads(c, s0, s) && WellFormed(c, s) && w < |s.workers| && s.workers[w].Idle?
    requires j == s.cursor && Regular(c, j) && KeyOf(c, j) in s.keys
    ensures Leads(c, s0, t) && WellFormed(c, t)
    ensures t == s.(cursor := j + 1, skipped := s.skipped + [Skip(j, AlreadyPublished)])
  {
    var u := TakeRegular(c, s0, s, w);
    t := Step(c, u, w, Ok);
    LeadsOn(c, s0, u, w, Ok);
    assert t.workers == s.workers;
  }

  /** One worker holds the key of the first twin, the other skips the second on it, and the upload fails. */
  lemma SkipThenLose(c: Config, s0: State, s: State, i: nat, j: nat) returns (t: State)
    requires Leads(c, s0, s) && WellFormed(c, s) && i == s.cursor && Twins(c, s.keys, s.hashes, i, j)
    requires |s.workers| >= 2 && s.workers[0].Idle? && s.workers[1].Idle?
    ensures Leads(c, s0, t) && WellFormed(c, t) && t.cursor == j + 1 && OnlyLists(s, t)
    ensures Skip(j, AlreadyPublished) in t.skipped && Failure(i, UploadFailed) in t.failed
  {
    var held := HoldDue(c, s0, s, 0, i);
    var u := PassUntil(c, s0, held, 1, j);
    u := SkipTaken(c, s0, u, 1, j);
    t := FailUpload(c, s0, u, 0, i);
    assert s.keys + {KeyOf(c, i)} - {KeyOf(c, i)} == s.keys;
    assert t.workers == s.workers;
  }

  /** With twins a run can skip the second on the reservation of the first, and then lose the first. */
  lemma TwinsLose(c: Config, keys0: set<string>, hashes0: map<string, string>, i: nat, j: nat) returns (t: State)
    requires Twins(c, keys0, hashes0, i, j)
    ensures Reachable(c, keys0, hashes0, t) && Ended(t)
    ensures Skip(j, AlreadyPublished) in t.skipped && !Durable(c, hashes0, t, j)
    ensures Failure(i, UploadFailed) in t.failed
  {
    var s0 := Start(c, keys0, hashes0);
    LeadsHere(c, s0);
    t := PassUntil(c, s0, s0, 0, i);
    t := SkipThenLose(c, s0, t, i, j);
    t := PassUntil(c, s0, t, 0, |c.entries|);
    t := ExitAll(c, s0, t, 0);
  }

  /**
    What holds at every point while no two entries are twins: the sources recorded before the sweep
    stay recorded, only files that are due are uploaded, and every skip is on bytes stored before.
   */
  ghost predicate Untwinned(c: Config, keys0: set<string>, hashes0: map<string, string>, s: State) {
    && (forall i :: Regular(c, i) && Recorded(c, hashes0, i) ==> Recorded(c, s.hashes, i))
    && (forall w :: 0 <= w < |s.workers| && (s.workers[w].Uploading? || s.workers[w].Stored?) ==>
          Due(c, keys0, hashes0, s.workers[w].i))
    && (forall i :: i in s.published ==> Due(c, keys0, hashes0, i))
    && (forall r :: r in s.skipped && r.reason.AlreadyPublished? ==> StoredBefore(c, keys0, hashes0, s, r.entry))
  }

  ghost predicate StoredBefore(c: Config, keys0: set<string>, hashes0: map<string, string>, s: State, i: nat) {
    Regular(c, i) && (KeyOf(c, i) in keys0 || SourceRecorded(c, hashes0, s, i))
  }

  /** A key taken while an entry is being hashed is initial, or another entry's. */
  lemma KeyTaken(c: Config, keys0: set<string>, hashes0: map<string, string>, s: State, w: nat, i: nat)
    returns (j: nat)
    requires Inv(c, keys0, hashes0, s) && Untwinned(c, keys0, hashes0, s)
    requires w < |s.workers| && s.workers[w] == Hashing(i) && KeyOf(c, i) in s.keys && KeyOf(c, i) !in keys0
    ensures j != i && Due(c, keys0, hashes0, j) && KeyOf(c, j) == KeyOf(c, i)
  {
    var k := KeyOf(c, i);
    assert Count(InHand(), s.workers, i) + Listings(s, i) <= 1;
    CountHas(InHand(), s.workers, w, i);
    if Count(KeyInHand(c), s.workers, k) >= 1 {
      var v := CountFind(KeyInHand(c), s.workers, k);
      j := s.workers[v].i;
      if j == i { CountOnce(InHand(), s.workers, if v < w then v else w, if v < w then w else v, i); }
    } else {
      assert Count<nat, string>(KeyPublished(c), s.published, k) >= 1;
      var p := CountFind<nat, string>(KeyPublished(c), s.published, k);
      j := s.published[p];
      assert j in s.published;
      if j == i { CountHas<nat, nat>(Itself(), s.published, p, i); }
    }
  }

  lemma KeySkipsAreTwins(c: Config, keys0: set<string>, hashes0: map<string, string>, s: State, w: nat, i: nat)
    requires Inv(c, keys0, hashes0, s) && Untwinned(c, keys0, hashes0, s) && !HasTwins(c, keys0, hashes0)
    requires w < |s.workers| && s.workers[w] == Hashing(i) && KeyOf(c, i) in s.keys
    ensures StoredBefore(c, keys0, hashes0, s, i)
  {
    if KeyOf(c, i) !in keys0 && !Recorded(c, hashes0, i) {
      var j := KeyTaken(c, keys0, hashes0, s, w, i);
      assert Twins(c, keys0, hashes0, if i < j then i else j, if i < j then j else i);
    }
  }

  lemma StaysStoredBefore(c: Config, keys0: set<string>, hashes0: map<string, string>, s: State, t: State, i: nat)
    requires StoredBefore(c, keys0, hashes0, s, i) && forall j: nat :: StoredHere(s, j) ==> StoredHere(t, j)
    ensures StoredBefore(c, keys0, hashes0, t, i)
  {
  }

  /** A key that is free while its entry is hashed is not an initial one. */
  lemma FreeKeyIsNew(c: Config, keys0: set<string>, s: State, k: string)
    requires KeysExact(c, keys0, s) && k !in s.keys
    ensures k !in keys0
  {
    assert One(k in s.keys) == 0;
  }

  lemma UntwinnedSkips(c: Config, keys0: set<string>, hashes0: map<string, string>, s: State, w: nat, o: Outcome)
    requires Inv(c, keys0, hashes0, s) && Enabled(s, w, o)
    requires Untwinned(c, keys0, hashes0, s) && !HasTwins(c, keys0, hashes0)
    ensures var t := Step(c, s, w, o);
            forall r :: r in t.skipped && r.reason.AlreadyPublished? ==> StoredBefore(c, keys0, hashes0, t, r.entry)
  {
    var t := Step(c, s, w, o);
    StepKeepsAccounts(c, s, w, o);
    forall r | r in t.skipped && r.reason.AlreadyPublished? ensures StoredBefore(c, keys0, hashes0, t, r.entry) {
      if r !in s.skipped {
        assert r == t.skipped[|s.skipped|];
        SkippedOnceHashed(c, s, w, o, r);
        if KeyOf(c, r.entry) in s.keys { KeySkipsAreTwins(c, keys0, hashes0, s, w, r.entry); }
      }
      StaysStoredBefore(c, keys0, hashes0, s, t, r.entry);
    }
  }

  lemma SkippedOnceHashed(c: Config, s: State, w: nat, o: Outcome, r: Skip)
    requires WellFormed(c, s) && Enabled(s, w, o) && r.reason.AlreadyPublished?
    requires r in Step(c, s, w, o).skipped && r !in s.skipped
    ensures s.workers[w] == Hashing(r.entry) && Regular(c, r.entry)
    ensures KeyOf(c, r.entry) in s.keys || Recorded(c, s.hashes, r.entry)
  {
  }

  lemma RecordsStay(c: Config, hashes0: map<string, string>, s: State, w: nat, o: Outcome, i: nat)
    requires WellFormed(c, s) && Enabled(s, w, o) && SourcesSteady(c)
    requires Regular(c, i) && Recorded(c, s.hashes, i)
    ensures Recorded(c, Step(c, s, w, o).hashes, i)
  {
  }

  lemma UploadsAreDue(c: Config, keys0: set<string>, hashes0: map<string, string>, s: State, w: nat, o: Outcome)
    requires WellFormed(c, s) && Enabled(s, w, o) && KeysExact(c, keys0, s)
    requires forall i :: Regular(c, i) && Recorded(c, hashes0, i) ==> Recorded(c, s.hashes, i)
    requires s.workers[w].Uploading? ==> Due(c, keys0, hashes0, s.workers[w].i)
    ensures var x := Step(c, s, w, o).workers[w]; x.Uploading? || x.Stored? ==> Due(c, keys0, hashes0, x.i)
  {
    var x := Step(c, s, w, o).workers[w];
    if x.Uploading? { FreeKeyIsNew(c, keys0, s, KeyOf(c, x.i)); }
  }

  lemma UntwinnedStep(c: Config, keys0: set<string>, hashes0: map<string, string>, s: State, w: nat, o: Outcome)
    requires Inv(c, keys0, hashes0, s) && Enabled(s, w, o) && SourcesSteady(c)
    requires Untwinned(c, keys0, hashes0, s) && !HasTwins(c, keys0, hashes0)
    ensures Untwinned(c, keys0, hashes0, Step(c, s, w, o))
  {
    var t := Step(c, s, w, o);
    UntwinnedSkips(c, keys0, hashes0, s, w, o);
    StepBooks(c, s, w, o);
    UploadsAreDue(c, keys0, hashes0, s, w, o);
    forall i | Regular(c, i) && Recorded(c, hashes0, i) ensures Recorded(c, t.hashes, i) {
      RecordsStay(c, hashes0, s, w, o, i);
    }
  }

  lemma {:induction false} UntwinnedRun(c: Config, keys0: set<string>, hashes0: map<string, string>,
                                        s: State, events: seq<Event>, t: State)
    requires Inv(c, keys0, hashes0, s) && Untwinned(c, keys0, hashes0, s) && Reaches(c, s, events, t)
    requires SourcesSteady(c) && !HasTwins(c, keys0, hashes0)
    ensures Untwinned(c, keys0, hashes0, t)
    decreases |events|
  {
    if events != [] {
      StepKeepsInv(c, keys0, hashes0, s, events[0].w, events[0].o);
      UntwinnedStep(c, keys0, hashes0, s, events[0].w, events[0].o);
      UntwinnedRun(c, keys0, hashes0, Step(c, s, events[0].w, events[0].o), events[1..], t);
    }
  }

  lemma SkipsStoredBefore(c: Config, keys0: set<string>, hashes0: map<string, string>, t: State, r: Skip)
    requires SourcesSteady(c) && !HasTwins(c, keys0, hashes0) && Reachable(c, keys0, hashes0, t)
    requires r in t.skipped && r.reason.AlreadyPublished?
    ensures StoredBefore(c, keys0, hashes0, t, r.entry) && Durable(c, hashes0, t, r.entry)
  {
    var events :| Reaches(c, Start(c, keys0, hashes0), events, t);
    StartInv(c, keys0, hashes0);
    UntwinnedRun(c, keys0, hashes0, Start(c, keys0, hashes0), events, t);
    ReachableInv(c, keys0, hashes0, t);
    assert One(KeyOf(c, r.entry) in t.keys) >= One(KeyOf(c, r.entry) in keys0);
  }

  /** An `already_published` skip of a finished sweep. */
  ghost predicate SkipReported(c: Config, keys0: set<string>, hashes0: map<string, string>, t: State, i: nat) {
    Reachable(c, keys0, hashes0, t) && Ended(t) && Skip(i, AlreadyPublished) in t.skipped && Regular(c, i)
  }

  /**
    `already_published` means already stored, in every finished run, exactly when no two files the sweep
    has to upload share their bytes and their stored name.
   */
  lemma SkipsDurableExactly(c: Config, keys0: set<string>, hashes0: map<string, string>)
    requires SourcesSteady(c)
    ensures (forall t, i :: SkipReported(c, keys0, hashes0, t, i) ==> Durable(c, hashes0, t, i))
            <==> !HasTwins(c, keys0, hashes0)
  {
    if HasTwins(c, keys0, hashes0) {
      var i, j :| Twins(c, keys0, hashes0, i, j);
      var t := TwinsLose(c, keys0, hashes0, i, j);
      assert SkipReported(c, keys0, hashes0, t, j);
    } else {
      forall t, i | SkipReported(c, keys0, hashes0, t, i) ensures Durable(c, hashes0, t, i) {
        SkipsStoredBefore(c, keys0, hashes0, t, Skip(i, AlreadyPublished));
      }
    }
  }

  /** A skip whose source is not recorded was on its key, which is stored, or which another entry failed to upload. */
  lemma SkipOnKeyAccounted(c: Config, keys0: set<string>, hashes0: map<string, string>, t: State, i: nat)
    requires SkipReported(c, keys0, hashes0, t, i) && !SourceRecorded(c, hashes0, t, i)
    ensures KeyOf(c, i) in t.keys
      || exists r :: r in t.failed && r.entry != i && Regular(c, r.entry) && KeyOf(c, r.entry) == KeyOf(c, i)
  {
    ReachableInv(c, keys0, hashes0, t);
    assert SkipTruthful(c, hashes0, t, Skip(i, AlreadyPublished));
    if KeyOf(c, i) !in t.keys {
      var r :| r in t.failed && Regular(c, r.entry) && KeyOf(c, r.entry) == KeyOf(c, i);
      if r.entry == i { ListedTwice(c, keys0, hashes0, t, Skip(i, AlreadyPublished), r); }
    }
  }

  lemma ListedTwice(c: Config, keys0: set<string>, hashes0: map<string, string>, t: State, r: Skip, f: Failure)
    requires Reachable(c, keys0, hashes0, t) && Ended(t) && r in t.skipped && f in t.failed
    ensures r.entry != f.entry
  {
    if r.entry == f.entry {
      EveryEntryReportedOnce(c, keys0, hashes0, t, r.entry);
      var i :| 0 <= i < |t.skipped| && t.skipped[i] == r;
      var j :| 0 <= j < |t.failed| && t.failed[j] == f;
      CountHas(SkippedEntry(), t.skipped, i, r.entry);
      CountHas(FailedEntry(), t.failed, j, r.entry);
    }
  }

  /** Files of one name and one content in two directories are twins: the second can be reported and not stored. */
  lemma SkipOnAbandonedReservation() returns (c: Config, t: State)
    ensures c.entries == [Entry("a", NotAFile), Entry("b", NotAFile),
                          Entry("a/x", File(1, "/a/x", "d")), Entry("b/x", File(1, "/b/x", "d"))]
    ensures SkipReported(c, {}, map[], t, 3) && !Durable(c, map[], t, 3)
    ensures KeyFailed(c, t, 3) && Summarize(c, t).status == Partial
  {
    c := Config([Entry("a", NotAFile), Entry("b", NotAFile),
                 Entry("a/x", File(1, "/a/x", "d")), Entry("b/x", File(1, "/b/x", "d"))], 1, (n: string) => n);
    VisibleInFolder('a');
    VisibleInFolder('b');
    assert Twins(c, {}, map[], 2, 3);
    t := TwinsLose(c, {}, map[], 2, 3);
    PartialMeansLoss(c, t);
  }

  lemma VisibleInFolder(folder: char)
    requires folder != '.' && folder != '/'
    ensures !HiddenPath([folder, '/', 'x']) && Basename([folder, '/', 'x']) == "x"
  {
    var rel := [folder, '/', 'x'];
    assert rel[1] == '/' && rel[1..] == "/x" && "/x"[0] == '/' && "/x"[1..] == "x" && "x"[1..] == "";
    assert !HiddenFrom("", false) && !HiddenFrom("x", true) && !HiddenFrom("/x", false) && !HiddenFrom(rel, true);
    assert Basename("x") == "x" && Basename("/x") == "x";
  }

  // ---------- the shared state, as the source holds it ----------

  class Sweep {
    const config: Config
    var cursor: nat
    var publishedKeys: set<string>
    var publishedSourceHashes: map<string, string>
    var published: seq<nat>
    var skipped: seq<Skip>
    var failed: seq<Failure>
    var workers: seq<Worker>

    function Now(): State
      reads this
    {
      State(cursor, publishedKeys, publishedSourceHashes, published, skipped, failed, workers)
    }

    constructor (config: Config, keys: set<string>, hashes: map<string, string>)
      ensures this.config == config && Now() == Start(config, keys, hashes)
    {
      this.config := config;
      cursor := 0;
      publishedKeys, publishedSourceHashes := keys, hashes;
      published, skipped, failed := [], [], [];
      workers := seq(Min(CONCURRENCY, |config.entries|), _ => Idle);
    }

    /** One worker runs from one await to the next. */
    method Turn(w: nat, o: Outcome)
      requires WellFormed(config, Now()) && Enabled(Now(), w, o)
      modifies this
      ensures Now() == Step(config, old(Now()), w, o)
    {
      match workers[w] {
        case Idle => TakeNext(w);
        case Statting(i) => AfterStat(w, i);
        case Hashing(i) =>
          if o.Throws? { workers := workers[w := Thrown(i)]; } else { AfterDigest(w, i); }
        case Uploading(i) =>
          if o.Err? { AfterFailure(w, i, o.code); } else { AfterResponse(w, i); }
        case Stored(i) =>
          published := published + [i];
          workers := workers[w := Emitting(i)];
        case Emitting(_) => workers := workers[w := Idle];
      }
    }

    method TakeNext(w: nat)
      requires w < |workers|
      modifies this
      ensures Now() == Take(config, old(Now()), w)
    {
      if cursor < |config.entries| {
        var i := cursor;
        cursor := cursor + 1;
        if HiddenPath(config.entries[i].rel) {
          skipped := skipped + [Skip(i, Hidden)];
          workers := workers[w := Idle];
        } else {
          workers := workers[w := Statting(i)];
        }
      } else {
        workers := workers[w := Exited];
      }
    }

    method AfterStat(w: nat, i: nat)
      requires w < |workers| && i < |config.entries|
      modifies this
      ensures Now() == Classify(config, old(Now()), w, i)
    {
      workers := workers[w := Idle];
      match config.entries[i].look {
        case StatFails => failed := failed + [Failure(i, UploadFailed)];
        case Symlink => skipped := skipped + [Skip(i, SymbolicLink)];
        case NotAFile => skipped := skipped + [Skip(i, EmptyDirOrOther)];
        case File(size, _, _) =>
          if size > config.maxFileBytes {
            skipped := skipped + [Skip(i, Oversized)];
          } else {
            workers := workers[w := Hashing(i)];
          }
      }
    }

    method AfterDigest(w: nat, i: nat)
      requires w < |workers| && i < |config.entries| && config.entries[i].look.File?
      modifies this
      ensures Now() == Reserve(config, old(Now()), w, i)
    {
      var f := config.entries[i].look;
      var key := KeyOf(config, i);
      if (f.source in publishedSourceHashes && publishedSourceHashes[f.source] == f.sha) || key in publishedKeys {
        skipped := skipped + [Skip(i, AlreadyPublished)];
        workers := workers[w := Idle];
      } else {
        publishedKeys := publishedKeys + {key};
        workers := workers[w := Uploading(i)];
      }
    }

    method AfterResponse(w: nat, i: nat)
      requires w < |workers| && i < |config.entries| && config.entries[i].look.File?
      modifies this
      ensures Now() == Respond(config, old(Now()), w, i)
    {
      var f := config.entries[i].look;
      publishedKeys := publishedKeys + {KeyOf(config, i)};
      publishedSourceHashes := publishedSourceHashes[f.source := f.sha];
      workers := workers[w := Stored(i)];
    }

    method AfterFailure(w: nat, i: nat, code: Code)
      requires w < |workers| && i < |config.entries| && config.entries[i].look.File?
      modifies this
      ensures Now() == RollBack(config, old(Now()), w, i, code)
    {
      publishedKeys := publishedKeys - {KeyOf(config, i)};
      failed := failed + [Failure(i, code)];
      workers := workers[w := Idle];
    }
  }

  /**
    The pool, for any scheduler and any replies: `schedule` is asked which worker to resume and how
    its call came back, and is obeyed whenever the answer is possible.
   */
  method SweepOutputs(config: Config, keys: set<string>, hashes: map<string, string>, schedule: State -> Event)
    returns (t: State, ghost events: seq<Event>)
    ensures Reaches(config, Start(config, keys, hashes), events, t)
    ensures Ended(t) || exists w :: 0 <= w < |t.workers| && t.workers[w].Thrown?
  {
    var sweep := new Sweep(config, keys, hashes);
    events := [];
    t := sweep.Now();
    StartInv(config, keys, hashes);
    while exists w :: 0 <= w < |t.workers| && !t.workers[w].Exited? && !t.workers[w].Thrown?
      invariant sweep.config == config && t == sweep.Now() && WellFormed(config, t)
      invariant Reaches(config, Start(config, keys, hashes), events, t)
      decreases Work(config, t)
    {
      var next := schedule(t);
      if !Enabled(t, next.w, next.o) {
        var w :| 0 <= w < |t.workers| && !t.workers[w].Exited? && !t.workers[w].Thrown?;
        next := Event(w, Ok);
      }
      StepWorks(config, t, next.w, next.o);
      WellFormedStep(config, t, next.w, next.o);
      ReachesSnoc(config, Start(config, keys, hashes), events, t, next.w, next.o);
      sweep.Turn(next.w, next.o);
      t := sweep.Now();
      events := events + [next];
    }
  }

  // ---------- one upload ----------

  /** `readable`: the body parses as the document stored. */
  datatype Reply = NetworkError | Http(status: nat, readable: bool)

  /** `Unread` is the error the parse of a successful reply throws, which is no upload error. */
  datatype Upload = Done | Abandoned(code: Code) | Unread

  const MAX_ATTEMPTS := 3

  predicate Success(r: Reply) { r.Http? && 200 <= r.status < 300 }

  /** What the sweep makes of it: any other error than an upload error is an `upload_failed`. */
  function ToOutcome(u: Upload): Outcome {
    match u
    case Done => Ok
    case Abandoned(code) => Err(code)
    case Unread => Err(UploadFailed)
  }

  predicate Retryable(r: Reply) { r.NetworkError? || r.status == 429 || r.status >= 500 }

  function ClassifyStatus(status: nat): Code {
    if status == 413 then FileTooLarge
    else if status == 403 then QuotaExceeded
    else if status == 409 then Conflict
    else UploadFailed
  }

  /** `replies(n)` is what attempt `n` meets. A definitive reply ends it; at most three attempts. */
  method UploadFile(replies: nat -> Reply) returns (r: Upload, attempts: nat)
    ensures 1 <= attempts <= MAX_ATTEMPTS
    ensures forall n :: 1 <= n < attempts ==> Retryable(replies(n))
    ensures r == Done <==> Success(replies(attempts)) && replies(attempts).readable
    ensures r == Unread <==> Success(replies(attempts)) && !replies(attempts).readable
    ensures Retryable(replies(attempts)) ==> attempts == MAX_ATTEMPTS && r == Abandoned(UploadFailed)
    ensures !Retryable(replies(attempts)) && r.Abandoned? ==> r.code == ClassifyStatus(replies(attempts).status)
  {
    attempts := 1;
    while attempts <= MAX_ATTEMPTS
      invariant 1 <= attempts <= MAX_ATTEMPTS
      invariant forall n :: 1 <= n < attempts ==> Retryable(replies(n))
      decreases MAX_ATTEMPTS - attempts
    {
      var reply := replies(attempts);
      if Success(reply) { return if reply.readable then Done else Unread, attempts; }
      if !Retryable(reply) { return Abandoned(ClassifyStatus(reply.status)), attempts; }
      if attempts >= MAX_ATTEMPTS { break; }
      attempts := attempts + 1;
    }
    r := Abandoned(UploadFailed);
  }
}
