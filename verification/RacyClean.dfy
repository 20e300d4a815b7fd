/**
 Why a recorded (mtime, size) may stand in for a file's content: the racily-clean rule of
 `StatCache::update` and the clone-root fallback `can_skip_hash`, over every run of one
 path with writers, a clock, any number of scans, and clone roots published by those
 scans (src/stat_cache.rs, src/scan.rs, src/commands/push.rs).
 */
module RacyClean {
  import opened Base
  import opened CacheSpec

  datatype File = File(content: seq<byte>, mtime: Instant)

  /** A clone-root blob entry: its date, size and hash. */
  datatype Root = Root(date: Option<int>, size: nat, hash: Hash)

  /**
   A published root with the mtime its date came from, when the scan that dated it observed
   the clock, whether that scan had read the file, and whether its answer was sound.
   */
  datatype Publication = Publication(root: Root, mtime: Instant, observedAt: Instant, read: bool, sound: bool)

  /**
   How a scan came to its hash. An answer is sound if it goes back to a read without passing
   through a root that was dated too early.
   */
  datatype Answer =
    Unknown | FromRead(hash: Hash) | FromCache(hash: Hash, sound: bool) | FromRoot(hash: Hash, sound: bool)

  predicate Sound(a: Answer) { a.FromRead? || (!a.Unknown? && a.sound) }

  /**
   One scan looking at the path, with the clone root it started from. `touched` says that
   the path was written or removed since the scan observed the clock.
   */
  datatype Scan = Scan(
    observedAt: Instant, root: Option<Publication>, touched: bool,
    stat: Option<(Instant, U64)>, taken: seq<byte>, answer: Answer)

  /**
   `recorded` holds every entry any scan wrote for the path, `sound` those that some scan
   wrote with a sound answer, `published` every root.
   */
  datatype World = World(
    clock: Instant, file: Option<File>, scans: map<nat, Scan>,
    recorded: set<Entry>, sound: set<Entry>, published: set<Publication>)

  datatype Event =
    | Tick(to: Instant)
    | Write(content: seq<byte>, mtime: Instant)
    | Remove
    | Observe(id: nat, root: Option<Publication>)
    | Stat(id: nat, mtime: Instant, size: U64)
    | Read(id: nat, data: seq<byte>)
    | Hit(id: nat, entry: Entry)
    | Adopt(id: nat)
    | Record(id: nat, sealed: bool)
    | Publish(id: nat)

  predicate Fits(content: seq<byte>) { |content| < 0x1_0000_0000_0000_0000 }

  /** Times before the Unix epoch have no date. */
  function DateOf(t: Instant): Option<int> { if t < 0 then None else Some(t) }

  /** `can_skip_hash`: same size, same date, and old enough at the time of the scan. */
  predicate Skips(r: Root, mtime: Instant, size: nat, now: Instant) {
    && size == r.size && DateOf(mtime) == r.date
    && now >= mtime && (now - mtime) / NANOS >= RACY_THRESHOLD_SECS
  }

  /** The latest mtime that has the same date. */
  function Latest(m: Instant): int { if m < 0 then -1 else m }

  /** The scan that dated the root looked so late that no write after it can have that date. */
  predicate Calm(slack: nat, p: Publication) { Latest(p.mtime) + slack < p.observedAt }

  /** The entry is a hit for a file with this mtime and size. */
  predicate HitsAt(e: Entry, mtime: Instant, size: U64) { Lookup(map[[] := e], [], mtime, size).Some? }

  /** The bytes a read starting behind `taken` may return: a piece of the file, nothing at its end. */
  predicate NextPiece(content: seq<byte>, taken: seq<byte>, data: seq<byte>) {
    && |taken| + |data| <= |content|
    && data == content[|taken|..|taken| + |data|]
    && (data == [] ==> |taken| == |content|)
  }

  /**
   When an event can happen. A write stamps an mtime at most `slack` nanoseconds away from
   the clock. A scan of a path that was not touched sees the file as it is; once it was, a
   scan that reads across the change or through an old handle may see anything. A hash is
   taken without reading from any recorded entry that hits what the scan saw, or from its
   clone root where `can_skip_hash` allows it.
   */
  predicate Enabled(slack: nat, w: World, e: Event) {
    match e
    case Tick(to) => w.clock <= to
    case Write(content, mtime) => Fits(content) && w.clock - slack <= mtime <= w.clock + slack
    case Remove => w.file.Some?
    case Observe(id, root) => id !in w.scans && (root.Some? ==> root.value in w.published)
    case Stat(id, mtime, size) =>
      id in w.scans && w.scans[id].stat.None? &&
      (w.scans[id].touched || (w.file.Some? && mtime == w.file.value.mtime && size == |w.file.value.content|))
    case Read(id, data) =>
      id in w.scans && w.scans[id].answer.Unknown? &&
      (w.scans[id].touched || (w.file.Some? && NextPiece(w.file.value.content, w.scans[id].taken, data)))
    case Hit(id, entry) =>
      id in w.scans && w.scans[id].answer.Unknown? && w.scans[id].stat.Some? && entry in w.recorded &&
      HitsAt(entry, w.scans[id].stat.value.0, w.scans[id].stat.value.1)
    case Adopt(id) =>
      id in w.scans && w.scans[id].answer.Unknown? && w.scans[id].stat.Some? && w.scans[id].root.Some? &&
      Skips(w.scans[id].root.value.root, w.scans[id].stat.value.0, w.scans[id].stat.value.1, w.scans[id].observedAt)
    case Record(id, _) => id in w.scans && Answered(w.scans[id])
    case Publish(id) => id in w.scans && Answered(w.scans[id])
  }

  predicate Answered(s: Scan) { s.stat.Some? && !s.answer.Unknown? }

  function Touched(scans: map<nat, Scan>): map<nat, Scan> {
    map id | id in scans :: scans[id].(touched := true)
  }

  /** The entry a finished scan records: what it saw at stat, and the hash it came to. */
  function RecordOf(s: Scan, sealed: bool): Entry
    requires Answered(s)
  {
    NewEntry(s.stat.value.0, s.stat.value.1, s.answer.hash, sealed, s.observedAt)
  }

  /**
   The root a finished scan publishes. Its date is the old root's if that was adopted or has
   the same hash, and the file's otherwise.
   */
  function PublicationOf(s: Scan): Publication
    requires Answered(s)
  {
    var size, hash := s.stat.value.1, s.answer.hash;
    if s.root.Some? && (s.answer.FromRoot? || (s.root.value.root.hash == hash && s.root.value.root.date.Some?)) then
      s.root.value.(root := Root(s.root.value.root.date, size, hash), read := false)
    else
      var date := DateOf(s.stat.value.0);
      Publication(Root(date, size, hash), s.stat.value.0, s.observedAt, s.answer.FromRead?, Sound(s.answer))
  }

  /** A read that delivers nothing ends the file. */
  function Took(sha: seq<byte> -> Hash, s: Scan, data: seq<byte>): Scan {
    s.(taken := s.taken + data, answer := if data == [] then FromRead(sha(s.taken)) else Unknown)
  }

  function Step(sha: seq<byte> -> Hash, slack: nat, w: World, e: Event): World
    requires Enabled(slack, w, e)
  {
    match e
    case Tick(to) => w.(clock := to)
    case Write(content, mtime) => w.(file := Some(File(content, mtime)), scans := Touched(w.scans))
    case Remove => w.(file := None, scans := Touched(w.scans))
    case Observe(id, root) => w.(scans := w.scans[id := Scan(w.clock, root, false, None, [], Unknown)])
    case Stat(id, mtime, size) => w.(scans := w.scans[id := w.scans[id].(stat := Some((mtime, size)))])
    case Read(id, data) => w.(scans := w.scans[id := Took(sha, w.scans[id], data)])
    case Hit(id, entry) =>
      w.(scans := w.scans[id := w.scans[id].(answer := FromCache(entry.hash, entry in w.sound))])
    case Adopt(id) =>
      var p := w.scans[id].root.value;
      w.(scans := w.scans[id := w.scans[id].(answer := FromRoot(p.root.hash, p.sound && Calm(slack, p)))])
    case Record(id, sealed) =>
      var added := {RecordOf(w.scans[id], sealed)};
      w.(recorded := w.recorded + added, sound := w.sound + if Sound(w.scans[id].answer) then added else {})
    case Publish(id) => w.(published := w.published + {PublicationOf(w.scans[id])})
  }

  /** The states a run of events passes through, from `w` to `w'`. */
  ghost predicate Runs(sha: seq<byte> -> Hash, slack: nat, w: World, es: seq<Event>, w': World)
    decreases |es|
  {
    if es == [] then w == w' else Enabled(slack, w, es[0]) && Runs(sha, slack, Step(sha, slack, w, es[0]), es[1..], w')
  }

  /** Any file, any clock, nothing scanned or published yet. */
  ghost predicate Start(w: World) {
    && w.scans == map[] && w.recorded == {} && w.sound == {} && w.published == {}
    && (w.file.Some? ==> Fits(w.file.value.content))
  }

  // ----- what is claimed ----------------------------------------------------

  ghost predicate Hits(e: Entry, f: File) { Fits(f.content) && HitsAt(e, f.mtime, |f.content|) }

  /** If the entry hits, it gives the hash of the current content. */
  ghost predicate HitTells(sha: seq<byte> -> Hash, e: Entry, w: World) {
    w.file.Some? && Hits(e, w.file.value) ==> e.hash == sha(w.file.value.content)
  }

  ghost predicate Truthful(sha: seq<byte> -> Hash, w: World) { forall e :: e in w.recorded ==> HitTells(sha, e, w) }

  /** A root that has the file's date and size gives the hash of its content. */
  ghost predicate RootTrue(sha: seq<byte> -> Hash, r: Root, file: Option<File>) {
    file.Some? && DateOf(file.value.mtime) == r.date && |file.value.content| == r.size ==>
      r.hash == sha(file.value.content)
  }

  ghost predicate AllCalm(slack: nat, w: World) { forall p :: p in w.published ==> Calm(slack, p) }

  // ----- what scans see, whatever is published ------------------------------

  const SLACK: nat := 2 * NANOS

  ghost predicate Seen(sha: seq<byte> -> Hash, f: File, s: Scan) {
    && (s.stat.Some? ==> s.stat.value.0 == f.mtime && s.stat.value.1 == |f.content|)
    && |s.taken| <= |f.content| && s.taken == f.content[..|s.taken|]
    && (s.answer.FromRead? ==> s.answer.hash == sha(f.content))
  }

  /** An adopted root has the date and size the scan saw, and gave it its hash. */
  ghost predicate AdoptedOk(slack: nat, s: Scan, p: Publication)
    requires s.answer.FromRoot?
  {
    && s.stat.Some? && DateOf(s.stat.value.0) == p.root.date && s.stat.value.1 == p.root.size
    && s.answer.hash == p.root.hash && s.answer.sound == (p.sound && Calm(slack, p))
  }

  ghost predicate ScanOk(sha: seq<byte> -> Hash, slack: nat, w: World, s: Scan) {
    && s.observedAt <= w.clock
    && (s.root.Some? ==> s.root.value in w.published && s.root.value.observedAt <= s.observedAt)
    && (s.answer.FromRoot? ==> s.root.Some? && AdoptedOk(slack, s, s.root.value))
    && (if s.touched then w.file.Some? ==> s.observedAt - slack <= w.file.value.mtime
        else if w.file.Some? then Seen(sha, w.file.value, s)
        else s.stat.None? && s.taken == [] && s.answer.Unknown?)
  }

  /** While the file has the root's date, it is the file the root was made from. */
  ghost predicate SameFile(sha: seq<byte> -> Hash, r: Root, file: Option<File>) {
    file.Some? && DateOf(file.value.mtime) == r.date ==>
      |file.value.content| == r.size && r.hash == sha(file.value.content)
  }

  ghost predicate PublicationOk(sha: seq<byte> -> Hash, slack: nat, w: World, p: Publication) {
    && p.observedAt <= w.clock && p.root.date == DateOf(p.mtime) && (p.read ==> p.sound)
    && (p.read && Calm(slack, p) ==> SameFile(sha, p.root, w.file))
  }

  ghost predicate Inv(sha: seq<byte> -> Hash, slack: nat, w: World) {
    && (w.file.Some? ==> Fits(w.file.value.content))
    && (forall id :: id in w.scans ==> ScanOk(sha, slack, w, w.scans[id]))
    && forall p :: p in w.published ==> PublicationOk(sha, slack, w, p)
  }

  /** A file stamped within the slack of some moment or later has no date that was calm then. */
  lemma {:induction false} LateStampMisdates(slack: nat, m: Instant, then': Instant, mtime: Instant)
    requires Latest(m) + slack < then' && then' - slack <= mtime
    ensures DateOf(mtime) != DateOf(m)
  {
  }

  lemma {:induction false} WriteKeeps(sha: seq<byte> -> Hash, slack: nat, w: World, e: Event)
    requires Inv(sha, slack, w) && Enabled(slack, w, e) && (e.Write? || e.Remove?)
    ensures Inv(sha, slack, Step(sha, slack, w, e))
  {
    var w' := Step(sha, slack, w, e);
    forall p | p in w'.published
      ensures PublicationOk(sha, slack, w', p)
    {
      assert PublicationOk(sha, slack, w, p);
      if e.Write? && Calm(slack, p) { LateStampMisdates(slack, p.mtime, p.observedAt, e.mtime); }
    }
    forall id | id in w'.scans
      ensures ScanOk(sha, slack, w', w'.scans[id])
    {
      assert ScanOk(sha, slack, w, w.scans[id]);
    }
  }

  lemma {:induction false} ReadKeeps(sha: seq<byte> -> Hash, slack: nat, w: World, id: nat, data: seq<byte>)
    requires Enabled(slack, w, Read(id, data)) && ScanOk(sha, slack, w, w.scans[id])
    ensures ScanOk(sha, slack, w, Took(sha, w.scans[id], data))
  {
    var s := w.scans[id];
    if !s.touched {
      var c := w.file.value.content;
      assert c[..|s.taken| + |data|] == c[..|s.taken|] + c[|s.taken|..|s.taken| + |data|];
      assert data == [] ==> c[..|s.taken|] == c;
    }
  }

  lemma {:induction false} PublishKeeps(sha: seq<byte> -> Hash, slack: nat, w: World, id: nat)
    requires Inv(sha, slack, w) && Enabled(slack, w, Publish(id))
    ensures PublicationOk(sha, slack, w, PublicationOf(w.scans[id]))
  {
    var s := w.scans[id];
    var p := PublicationOf(s);
    assert ScanOk(sha, slack, w, s);
    if s.root.Some? { assert PublicationOk(sha, slack, w, s.root.value); }
    if s.touched && w.file.Some? && p.read && Calm(slack, p) {
      LateStampMisdates(slack, p.mtime, p.observedAt, w.file.value.mtime);
    }
  }

  /** Events that change neither the file nor what is published. */
  lemma {:induction false} OtherKeeps(sha: seq<byte> -> Hash, slack: nat, w: World, e: Event)
    requires Inv(sha, slack, w) && Enabled(slack, w, e) && !e.Write? && !e.Remove? && !e.Publish?
    ensures Inv(sha, slack, Step(sha, slack, w, e))
  {
    var w' := Step(sha, slack, w, e);
    forall p | p in w'.published
      ensures PublicationOk(sha, slack, w', p)
    {
      assert PublicationOk(sha, slack, w, p);
    }
    forall id | id in w'.scans
      ensures ScanOk(sha, slack, w', w'.scans[id])
    {
      if id in w.scans { assert ScanOk(sha, slack, w, w.scans[id]); }
      if e.Read? && e.id == id { ReadKeeps(sha, slack, w, id, e.data); }
    }
  }

  lemma {:induction false} StepKeeps(sha: seq<byte> -> Hash, slack: nat, w: World, e: Event)
    requires Inv(sha, slack, w) && Enabled(slack, w, e)
    ensures Inv(sha, slack, Step(sha, slack, w, e))
  {
    if e.Write? || e.Remove? {
      WriteKeeps(sha, slack, w, e);
    } else if e.Publish? {
      var w' := Step(sha, slack, w, e);
      PublishKeeps(sha, slack, w, e.id);
      assert forall p :: p in w'.published ==> p in w.published || p == PublicationOf(w.scans[e.id]);
      assert forall p :: p in w.published ==> PublicationOk(sha, slack, w, p);
      assert forall id :: id in w.scans ==> ScanOk(sha, slack, w, w.scans[id]);
    } else {
      OtherKeeps(sha, slack, w, e);
    }
  }

  lemma {:induction false} RunKeeps(sha: seq<byte> -> Hash, slack: nat, w: World, es: seq<Event>, w': World)
    requires Inv(sha, slack, w) && Runs(sha, slack, w, es, w')
    ensures Inv(sha, slack, w') && w.published <= w'.published && w.sound <= w'.sound
    decreases |es|
  {
    if es != [] {
      StepKeeps(sha, slack, w, es[0]);
      RunKeeps(sha, slack, Step(sha, slack, w, es[0]), es[1..], w');
    }
  }

  // ----- what sound answers tell --------------------------------------------

  ghost predicate ScanTrue(sha: seq<byte> -> Hash, w: World, s: Scan) {
    !s.touched && w.file.Some? && Sound(s.answer) ==> s.answer.hash == sha(w.file.value.content)
  }

  ghost predicate EntryTrue(sha: seq<byte> -> Hash, w: World, e: Entry) {
    && (!e.isUnsafe ==> w.clock >= 0 && e.mtimeSecs + RACY_THRESHOLD_SECS <= w.clock / NANOS)
    && HitTells(sha, e, w)
  }

  ghost predicate RootStays(sha: seq<byte> -> Hash, slack: nat, w: World, p: Publication) {
    p.sound && Calm(slack, p) ==> SameFile(sha, p.root, w.file)
  }

  ghost predicate SoundTrue(sha: seq<byte> -> Hash, slack: nat, w: World) {
    && (forall id :: id in w.scans ==> ScanTrue(sha, w, w.scans[id]))
    && (forall e :: e in w.sound ==> EntryTrue(sha, w, e))
    && forall p :: p in w.published ==> RootStays(sha, slack, w, p)
  }

  /** A file stamped within two seconds of some moment or later is no hit for an entry that was safe then. */
  lemma {:induction false} LateStampMisses(e: Entry, f: File, then': Instant)
    requires then' >= 0 && e.mtimeSecs + RACY_THRESHOLD_SECS <= then' / NANOS && then' - SLACK <= f.mtime
    ensures !Hits(e, f)
  {
  }

  lemma {:induction false} WriteTells(sha: seq<byte> -> Hash, slack: nat, w: World, e: Event)
    requires slack <= SLACK && Inv(sha, slack, w) && SoundTrue(sha, slack, w)
    requires Enabled(slack, w, e) && (e.Write? || e.Remove?)
    ensures SoundTrue(sha, slack, Step(sha, slack, w, e))
  {
    var w' := Step(sha, slack, w, e);
    forall x | x in w'.sound
      ensures EntryTrue(sha, w', x)
    {
      assert EntryTrue(sha, w, x);
      if e.Write? && !x.isUnsafe { LateStampMisses(x, w'.file.value, w.clock); }
    }
    forall p | p in w'.published
      ensures RootStays(sha, slack, w', p)
    {
      assert PublicationOk(sha, slack, w, p);
      if e.Write? && Calm(slack, p) { LateStampMisdates(slack, p.mtime, p.observedAt, e.mtime); }
    }
  }

  lemma {:induction false} RecordTells(sha: seq<byte> -> Hash, slack: nat, w: World, id: nat, sealed: bool)
    requires slack <= SLACK && Inv(sha, slack, w) && SoundTrue(sha, slack, w) && Enabled(slack, w, Record(id, sealed))
    requires Sound(w.scans[id].answer)
    ensures EntryTrue(sha, w, RecordOf(w.scans[id], sealed))
  {
    var s := w.scans[id];
    var e := RecordOf(s, sealed);
    assert ScanOk(sha, slack, w, s) && ScanTrue(sha, w, s);
    if w.file.Some? && s.touched && !e.isUnsafe { LateStampMisses(e, w.file.value, s.observedAt); }
  }

  lemma {:induction false} PublishTells(sha: seq<byte> -> Hash, slack: nat, w: World, id: nat)
    requires Inv(sha, slack, w) && SoundTrue(sha, slack, w) && Enabled(slack, w, Publish(id))
    ensures RootStays(sha, slack, w, PublicationOf(w.scans[id]))
  {
    var s := w.scans[id];
    var p := PublicationOf(s);
    assert ScanOk(sha, slack, w, s) && ScanTrue(sha, w, s);
    if s.root.Some? {
      assert PublicationOk(sha, slack, w, s.root.value) && RootStays(sha, slack, w, s.root.value);
    }
    if s.touched && w.file.Some? && Calm(slack, p) {
      LateStampMisdates(slack, p.mtime, s.observedAt, w.file.value.mtime);
    }
  }

  lemma {:induction false} AnswerTells(sha: seq<byte> -> Hash, slack: nat, w: World, e: Event)
    requires Inv(sha, slack, w) && SoundTrue(sha, slack, w) && Enabled(slack, w, e) && (e.Hit? || e.Adopt? || e.Read?)
    ensures ScanTrue(sha, w, Step(sha, slack, w, e).scans[e.id])
  {
    var s := w.scans[e.id];
    StepKeeps(sha, slack, w, e);
    assert ScanOk(sha, slack, Step(sha, slack, w, e), Step(sha, slack, w, e).scans[e.id]);
    assert ScanOk(sha, slack, w, s);
    if e.Hit? && e.entry in w.sound { assert EntryTrue(sha, w, e.entry); }
    if e.Adopt? { assert RootStays(sha, slack, w, s.root.value); }
  }

  /** Every event keeps sound answers, sound entries and sound calm roots right. */
  lemma {:induction false} StepTells(sha: seq<byte> -> Hash, slack: nat, w: World, e: Event)
    requires slack <= SLACK && Inv(sha, slack, w) && SoundTrue(sha, slack, w) && Enabled(slack, w, e)
    ensures SoundTrue(sha, slack, Step(sha, slack, w, e))
  {
    var w' := Step(sha, slack, w, e);
    match e
    case Write(_, _) => WriteTells(sha, slack, w, e);
    case Remove => WriteTells(sha, slack, w, e);
    case Record(id, sealed) => if Sound(w.scans[id].answer) { RecordTells(sha, slack, w, id, sealed); }
    case Publish(id) =>
      PublishTells(sha, slack, w, id);
      assert forall p :: p in w'.published ==> p in w.published || p == PublicationOf(w.scans[id]);
    case Read(_, _) => AnswerTells(sha, slack, w, e);
    case Hit(_, _) => AnswerTells(sha, slack, w, e);
    case Adopt(_) => AnswerTells(sha, slack, w, e);
    case Tick(_) =>
      assert forall x :: x in w'.sound ==> EntryTrue(sha, w, x);
      assert forall id :: id in w'.scans ==> ScanTrue(sha, w, w'.scans[id]);
    case Observe(_, _) =>
    case Stat(_, _, _) =>
  }

  lemma {:induction false} RunTells(sha: seq<byte> -> Hash, slack: nat, w: World, es: seq<Event>, w': World)
    requires slack <= SLACK && Inv(sha, slack, w) && SoundTrue(sha, slack, w) && Runs(sha, slack, w, es, w')
    ensures SoundTrue(sha, slack, w')
    decreases |es|
  {
    if es != [] {
      StepKeeps(sha, slack, w, es[0]);
      StepTells(sha, slack, w, es[0]);
      RunTells(sha, slack, Step(sha, slack, w, es[0]), es[1..], w');
    }
  }

  // ----- when every root is calm, everything is sound -----------------------

  ghost predicate AllSound(w: World) {
    && (forall id :: id in w.scans && !w.scans[id].answer.Unknown? ==> Sound(w.scans[id].answer))
    && w.recorded <= w.sound && forall p :: p in w.published ==> p.sound
  }

  lemma {:induction false} StepSound(sha: seq<byte> -> Hash, slack: nat, w: World, e: Event)
    requires Inv(sha, slack, w) && AllSound(w) && AllCalm(slack, w) && Enabled(slack, w, e)
    ensures AllSound(Step(sha, slack, w, e))
  {
    if e.Adopt? || e.Publish? { assert ScanOk(sha, slack, w, w.scans[e.id]); }
  }

  lemma {:induction false} RunSound(sha: seq<byte> -> Hash, slack: nat, w: World, es: seq<Event>, w': World)
    requires Inv(sha, slack, w) && AllSound(w) && Runs(sha, slack, w, es, w') && AllCalm(slack, w')
    ensures AllSound(w')
    decreases |es|
  {
    RunKeeps(sha, slack, w, es, w');
    if es != [] {
      StepKeeps(sha, slack, w, es[0]);
      StepSound(sha, slack, w, es[0]);
      RunSound(sha, slack, Step(sha, slack, w, es[0]), es[1..], w');
    }
  }

  // ----- the theorems -------------------------------------------------------

  /**
   In every run whose writes stamp within two seconds of the clock, whatever else was
   published, adopted or recorded: every sound entry that hits, and every sound calm root
   with the file's date and size, tells the truth about the file as it is.
   */
  lemma {:induction false} SoundHitsAreTruthful(sha: seq<byte> -> Hash, slack: nat, w: World, es: seq<Event>, w': World)
    requires slack <= SLACK && Start(w) && Runs(sha, slack, w, es, w')
    ensures forall e :: e in w'.sound ==> HitTells(sha, e, w')
    ensures forall p :: p in w'.published && p.sound && Calm(slack, p) ==> RootTrue(sha, p.root, w'.file)
  {
    RunTells(sha, slack, w, es, w');
    assert forall e :: e in w'.sound ==> EntryTrue(sha, w', e);
    assert forall p :: p in w'.published ==> RootStays(sha, slack, w', p);
  }

  /** If every published root was calm, this is so for every hit and every root. */
  lemma {:induction false} HitsAreTruthful(sha: seq<byte> -> Hash, slack: nat, w: World, es: seq<Event>, w': World)
    requires slack <= SLACK && Start(w) && Runs(sha, slack, w, es, w') && AllCalm(slack, w')
    ensures Truthful(sha, w') && forall p :: p in w'.published ==> RootTrue(sha, p.root, w'.file)
  {
    SoundHitsAreTruthful(sha, slack, w, es, w');
    RunSound(sha, slack, w, es, w');
  }

  /** A run on whose way from `mid` a finished scan records its entry, with any continuation. */
  ghost predicate Records(sha: seq<byte> -> Hash, slack: nat, w: World, es: seq<Event>, mid: World, id: nat,
      sealed: bool, es': seq<Event>, w': World) {
    && Start(w) && Runs(sha, slack, w, es, mid) && Enabled(slack, mid, Record(id, sealed))
    && Runs(sha, slack, Step(sha, slack, mid, Record(id, sealed)), es', w')
  }

  /** What a scan recorded after reading the file is right whenever it hits, however long after. */
  lemma {:induction false} ReadEntriesAreTruthful(sha: seq<byte> -> Hash, slack: nat, w: World, es: seq<Event>,
      mid: World, id: nat, sealed: bool, es': seq<Event>, w': World)
    requires slack <= SLACK && Records(sha, slack, w, es, mid, id, sealed, es', w')
    requires mid.scans[id].answer.FromRead?
    ensures HitTells(sha, RecordOf(mid.scans[id], sealed), w')
  {
    var after := Step(sha, slack, mid, Record(id, sealed));
    RunKeeps(sha, slack, w, es, mid);
    RunTells(sha, slack, w, es, mid);
    StepKeeps(sha, slack, mid, Record(id, sealed));
    StepTells(sha, slack, mid, Record(id, sealed));
    RunKeeps(sha, slack, after, es', w');
    RunTells(sha, slack, after, es', w');
    assert EntryTrue(sha, w', RecordOf(mid.scans[id], sealed));
  }

  /** A scan that reads a one-byte file nobody writes meanwhile, and stops before it records anything. */
  lemma {:induction false} QuietRead(sha: seq<byte> -> Hash, slack: nat, file: File, clock: Instant)
    returns (w: World, es: seq<Event>, w': World)
    requires |file.content| == 1
    ensures w == World(clock, Some(file), map[], {}, {}, {}) && Runs(sha, slack, w, es, w')
    ensures var s := Scan(clock, None, false, Some((file.mtime, 1)), file.content, FromRead(sha(file.content)));
            w' == World(clock, Some(file), map[0 := s], {}, {}, {})
  {
    w := World(clock, Some(file), map[], {}, {}, {});
    var e0, e1, e2, e3 := Observe(0, None), Stat(0, file.mtime, 1), Read(0, file.content), Read(0, []);
    var w1 := Step(sha, slack, w, e0);
    var w2 := Step(sha, slack, w1, e1);
    var w3 := Step(sha, slack, w2, e2);
    assert [] + file.content == file.content && file.content + [] == file.content;
    w' := Step(sha, slack, w3, e3);
    es := [e0, e1, e2, e3];
    RunCons(sha, slack, w3, e3, [], w');
    RunCons(sha, slack, w2, e2, [e3], w');
    RunCons(sha, slack, w1, e1, [e2, e3], w');
    RunCons(sha, slack, w, e0, [e1, e2, e3], w');
  }

  lemma {:induction false} RunCons(sha: seq<byte> -> Hash, slack: nat, w: World, e: Event, es: seq<Event>, w': World)
    requires Enabled(slack, w, e) && Runs(sha, slack, Step(sha, slack, w, e), es, w')
    ensures Runs(sha, slack, w, [e] + es, w')
  {
    assert ([e] + es)[1..] == es;
  }

  lemma {:induction false} RunSnoc(sha: seq<byte> -> Hash, slack: nat, w: World, es: seq<Event>, w': World, e: Event)
    requires Runs(sha, slack, w, es, w') && Enabled(slack, w', e)
    ensures Runs(sha, slack, w, es + [e], Step(sha, slack, w', e))
    decreases |es|
  {
    if es == [] {
      assert es + [e] == [e] && [e][1..] == [];
    } else {
      RunSnoc(sha, slack, Step(sha, slack, w, es[0]), es[1..], w', e);
      assert (es + [e])[1..] == es[1..] + [e];
    }
  }

  /** One nanosecond more and the rule fails: a rewrite lands on the mtime and size of an entry that was read. */
  lemma {:induction false} LaterStampsDeceive(sha: seq<byte> -> Hash, slack: nat)
    returns (w: World, es: seq<Event>, mid: World, es': seq<Event>, w': World)
    requires slack > SLACK && sha([0]) != sha([1])
    ensures Records(sha, slack, w, es, mid, 0, false, es', w') && mid.scans[0].answer.FromRead?
    ensures Runs(sha, slack, w, es + [Record(0, false)] + es', w') && w'.published == {}
    ensures RecordOf(mid.scans[0], false) in w'.recorded && !HitTells(sha, RecordOf(mid.scans[0], false), w')
  {
    w, es, mid := QuietRead(sha, slack, File([0], NANOS - 1), 3 * NANOS);
    var record, rewrite := Record(0, false), Write([1], NANOS - 1);
    RunSnoc(sha, slack, w, es, mid, record);
    var after := Step(sha, slack, mid, record);
    es', w' := [rewrite], Step(sha, slack, after, rewrite);
    RunSnoc(sha, slack, w, es + [record], after, rewrite);
    RunCons(sha, slack, after, rewrite, [], w');
    var e := NewEntry(NANOS - 1, 1, sha([0]), false, 3 * NANOS);
    assert e == RecordOf(mid.scans[0], false) && Hits(e, w'.file.value) && e.hash == sha([0]);
  }

  /** Entries recorded after a read are right in every run. */
  ghost predicate ReadsTruthful(sha: seq<byte> -> Hash, slack: nat) {
    forall w, es, mid, id, sealed, es', w' ::
      Records(sha, slack, w, es, mid, id, sealed, es', w') && mid.scans[id].answer.FromRead? ==>
        HitTells(sha, RecordOf(mid.scans[id], sealed), w')
  }

  /** The three-second rule keeps what was read safe exactly on filesystems that stamp within two seconds. */
  lemma {:induction false} ReadsTruthfulExactly(sha: seq<byte> -> Hash, slack: nat)
    requires sha([0]) != sha([1])
    ensures ReadsTruthful(sha, slack) <==> slack <= SLACK
  {
    if slack <= SLACK {
      forall w, es, mid, id, sealed, es', w' |
        Records(sha, slack, w, es, mid, id, sealed, es', w') && mid.scans[id].answer.FromRead?
        ensures HitTells(sha, RecordOf(mid.scans[id], sealed), w')
      {
        ReadEntriesAreTruthful(sha, slack, w, es, mid, id, sealed, es', w');
      }
    } else {
      var w, es, mid, es', w' := LaterStampsDeceive(sha, slack);
    }
  }

  ghost predicate AlwaysTruthful(sha: seq<byte> -> Hash, slack: nat) {
    forall w, es, w' :: Start(w) && Runs(sha, slack, w, es, w') && AllCalm(slack, w') ==> Truthful(sha, w')
  }

  /** With calm roots, the three-second rule is safe exactly for filesystems that stamp within two seconds. */
  lemma {:induction false} TruthfulExactly(sha: seq<byte> -> Hash, slack: nat)
    requires sha([0]) != sha([1])
    ensures AlwaysTruthful(sha, slack) <==> slack <= SLACK
  {
    if slack <= SLACK {
      forall w, es, w' | Start(w) && Runs(sha, slack, w, es, w') && AllCalm(slack, w')
        ensures Truthful(sha, w')
      {
        HitsAreTruthful(sha, slack, w, es, w');
      }
    } else {
      var w, es, mid, es', w' := LaterStampsDeceive(sha, slack);
      assert !Truthful(sha, w');
    }
  }

  // ----- exactly which roots are safe ---------------------------------------

  /** A root that a reading scan dated `m` at `obs` is right whenever it has the file's date and size. */
  ghost predicate NeverStale(sha: seq<byte> -> Hash, slack: nat, m: Instant, obs: Instant) {
    forall w, es, w', p :: Start(w) && Runs(sha, slack, w, es, w') && ReadPublished(w', p, m, obs) ==>
      RootTrue(sha, p.root, w'.file)
  }

  ghost predicate ReadPublished(w: World, p: Publication, m: Instant, obs: Instant) {
    p in w.published && p.read && p.mtime == m && p.observedAt == obs
  }

  function Later(a: Instant, b: Instant): Instant { if a < b then b else a }

  /** A root that is not calm goes stale: the file is rewritten under the same date. */
  lemma {:induction false} RacyRootGoesStale(sha: seq<byte> -> Hash, slack: nat, m: Instant, obs: Instant)
    returns (w: World, es: seq<Event>, w': World, p: Publication)
    requires Latest(m) + slack >= obs && sha([0]) != sha([1])
    ensures Start(w) && Runs(sha, slack, w, es, w') && ReadPublished(w', p, m, obs)
    ensures w'.file == Some(File([1], Latest(m))) && w'.clock == Later(obs, Latest(m)) && w'.recorded == {}
    ensures w'.scans.Keys == {0} && w'.published == {p} && p.root == Root(DateOf(m), 1, sha([0]))
  {
    w, es, w' := QuietRead(sha, slack, File([0], m), obs);
    var publish, tick, rewrite := Publish(0), Tick(Later(obs, Latest(m))), Write([1], Latest(m));
    RunSnoc(sha, slack, w, es, w', publish);
    es, w' := es + [publish], Step(sha, slack, w', publish);
    p := Publication(Root(DateOf(m), 1, sha([0])), m, obs, true, true);
    assert p in w'.published;
    RunSnoc(sha, slack, w, es, w', tick);
    es, w' := es + [tick], Step(sha, slack, w', tick);
    RunSnoc(sha, slack, w, es, w', rewrite);
    es, w' := es + [rewrite], Step(sha, slack, w', rewrite);
  }

  /** A root never goes stale exactly when the scan that dated it was calm, whatever else is published. */
  lemma {:induction false} NeverStaleExactly(sha: seq<byte> -> Hash, slack: nat, m: Instant, obs: Instant)
    requires sha([0]) != sha([1])
    ensures NeverStale(sha, slack, m, obs) <==> Latest(m) + slack < obs
  {
    if Latest(m) + slack < obs {
      forall w, es, w', p | Start(w) && Runs(sha, slack, w, es, w') && ReadPublished(w', p, m, obs)
        ensures RootTrue(sha, p.root, w'.file)
      {
        RunKeeps(sha, slack, w, es, w');
        assert PublicationOk(sha, slack, w', p);
      }
    } else {
      var w, es, w', p := RacyRootGoesStale(sha, slack, m, obs);
      assert !RootTrue(sha, p.root, w'.file);
    }
  }

  /** The end of representable time, far enough away for one more scan. */
  predicate HasFuture(t: Instant) { t + 4 * NANOS < 0x8000_0000_0000_0000 * NANOS }

  /** Four seconds later another scan starts from the root and looks at the file. */
  lemma {:induction false} LookAgain(
    sha: seq<byte> -> Hash, slack: nat, w: World, es: seq<Event>, w': World, p: Publication)
    returns (es': seq<Event>, w'': World)
    requires Runs(sha, slack, w, es, w') && p in w'.published && w'.file.Some? && 1 !in w'.scans
    requires Fits(w'.file.value.content) && HasFuture(w'.clock)
    ensures Runs(sha, slack, w, es', w'')
    ensures var now := w'.clock + 4 * NANOS;
            var stat := (w'.file.value.mtime, |w'.file.value.content|);
            w'' == w'.(clock := now, scans := w'.scans[1 := Scan(now, Some(p), false, Some(stat), [], Unknown)])
  {
    var f := w'.file.value;
    var now: Instant := w'.clock + 4 * NANOS;
    var tick, observe, stat := Tick(now), Observe(1, Some(p)), Stat(1, f.mtime, |f.content|);
    es', w'' := es, w';
    RunSnoc(sha, slack, w, es', w'', tick);
    es', w'' := es' + [tick], Step(sha, slack, w'', tick);
    RunSnoc(sha, slack, w, es', w'', observe);
    es', w'' := es' + [observe], Step(sha, slack, w'', observe);
    RunSnoc(sha, slack, w, es', w'', stat);
    es', w'' := es' + [stat], Step(sha, slack, w'', stat);
  }

  /** It takes the stale root's hash without reading, and records it as safe. */
  lemma {:induction false} StaleRootIsAdopted(
    sha: seq<byte> -> Hash, slack: nat, w: World, es: seq<Event>, w': World, p: Publication)
    returns (es': seq<Event>, w'': World)
    requires Runs(sha, slack, w, es, w') && p in w'.published && w'.file.Some? && 1 !in w'.scans
    requires p.root.size == |w'.file.value.content| < 0x1_0000 && p.root.date == DateOf(w'.file.value.mtime)
    requires -1 <= w'.clock && w'.file.value.mtime <= w'.clock && HasFuture(w'.clock)
    ensures Runs(sha, slack, w, es', w'') && w''.file == w'.file && w''.published == w'.published
    ensures Enabled(slack, w'', Record(1, false)) && w''.scans[1].answer.FromRoot? && w''.scans[1].root == Some(p)
    ensures var e := RecordOf(w''.scans[1], false); Hits(e, w''.file.value) && e.hash == p.root.hash
  {
    es', w'' := LookAgain(sha, slack, w, es, w', p);
    RunSnoc(sha, slack, w, es', w'', Adopt(1));
    es', w'' := es' + [Adopt(1)], Step(sha, slack, w'', Adopt(1));
    assert RecordOf(w''.scans[1], false) ==
           NewEntry(w'.file.value.mtime, p.root.size, p.root.hash, false, w'.clock + 4 * NANOS);
  }

  /** The scan took its hash from a root that a reading scan dated `m` at `obs`. */
  ghost predicate AdoptedFrom(s: Scan, m: Instant, obs: Instant) {
    s.answer.FromRoot? && s.root.Some? && s.root.value.read && s.root.value.mtime == m && s.root.value.observedAt == obs
  }

  /**
   So every root that is not calm can end in a safe cache entry that hits and lies, for any
   slack: the unsafe mark of the first scan's own entry does not help, because the fallback
   runs right after that miss.
   */
  lemma {:induction false} RacyRootDeceives(sha: seq<byte> -> Hash, slack: nat, m: Instant, obs: Instant)
    returns (w: World, es: seq<Event>, mid: World, w': World, p: Publication)
    requires Latest(m) + slack >= obs && HasFuture(Later(obs, Latest(m))) && sha([0]) != sha([1])
    ensures Records(sha, slack, w, es, mid, 1, false, [], w') && AdoptedFrom(mid.scans[1], m, obs)
    ensures Runs(sha, slack, w, es + [Record(1, false)], w') && w'.published == {p} && ReadPublished(w', p, m, obs)
    ensures RecordOf(mid.scans[1], false) in w'.recorded && !HitTells(sha, RecordOf(mid.scans[1], false), w')
    ensures !Truthful(sha, w')
  {
    w, es, mid, p := RacyRootGoesStale(sha, slack, m, obs);
    es, mid := StaleRootIsAdopted(sha, slack, w, es, mid, p);
    RunSnoc(sha, slack, w, es, mid, Record(1, false));
    w' := Step(sha, slack, mid, Record(1, false));
    assert RecordOf(mid.scans[1], false) in w'.recorded;
  }

  /** Entries recorded from a root that a reading scan dated `m` at `obs` are right in every run. */
  ghost predicate AdoptionsTruthful(sha: seq<byte> -> Hash, slack: nat, m: Instant, obs: Instant) {
    forall w, es, mid, id, sealed, es', w' ::
      Records(sha, slack, w, es, mid, id, sealed, es', w') && AdoptedFrom(mid.scans[id], m, obs) ==>
        HitTells(sha, RecordOf(mid.scans[id], sealed), w')
  }

  /** What was recorded from a root that a calm reading scan published is right, for any slack. */
  lemma {:induction false} AdoptedEntriesAreTruthful(sha: seq<byte> -> Hash, slack: nat, w: World, es: seq<Event>,
      mid: World, id: nat, sealed: bool, es': seq<Event>, w': World)
    requires Records(sha, slack, w, es, mid, id, sealed, es', w') && mid.scans[id].answer.FromRoot?
    requires mid.scans[id].root.Some? && mid.scans[id].root.value.read && Calm(slack, mid.scans[id].root.value)
    ensures HitTells(sha, RecordOf(mid.scans[id], sealed), w')
  {
    var s := mid.scans[id];
    RunKeeps(sha, slack, w, es, mid);
    assert ScanOk(sha, slack, mid, s);
    StepKeeps(sha, slack, mid, Record(id, sealed));
    RunKeeps(sha, slack, Step(sha, slack, mid, Record(id, sealed)), es', w');
    assert PublicationOk(sha, slack, w', s.root.value);
    HitHasStat(s.stat.value.0, s.stat.value.1, s.answer.hash, sealed, s.observedAt, w');
  }

  /** An entry hits only files with the mtime it was made from. */
  lemma {:induction false} HitHasStat(mtime: Instant, size: U64, h: Hash, sealed: bool, obs: Instant, w: World)
    ensures w.file.Some? && Hits(NewEntry(mtime, size, h, sealed, obs), w.file.value) ==>
              w.file.value.mtime == mtime && |w.file.value.content| == size
  {
  }

  /** They are exactly for roots that a calm scan dated. */
  lemma {:induction false} AdoptionsTruthfulExactly(sha: seq<byte> -> Hash, slack: nat, m: Instant, obs: Instant)
    requires sha([0]) != sha([1]) && HasFuture(Later(obs, Latest(m)))
    ensures AdoptionsTruthful(sha, slack, m, obs) <==> Latest(m) + slack < obs
  {
    if Latest(m) + slack < obs {
      forall w, es, mid, id, sealed, es', w' |
        Records(sha, slack, w, es, mid, id, sealed, es', w') && AdoptedFrom(mid.scans[id], m, obs)
        ensures HitTells(sha, RecordOf(mid.scans[id], sealed), w')
      {
        AdoptedEntriesAreTruthful(sha, slack, w, es, mid, id, sealed, es', w');
      }
    } else {
      var w, es, mid, w', p := RacyRootDeceives(sha, slack, m, obs);
    }
  }

  /** Wherever the hash may be skipped for the root of a reading scan, it is the file's hash. */
  ghost predicate SkippingIsSafe(sha: seq<byte> -> Hash, slack: nat, m: Instant, obs: Instant) {
    forall w, es, w', p | Start(w) && Runs(sha, slack, w, es, w') && ReadPublished(w', p, m, obs) ::
      SkipsRight(sha, p.root, w')
  }

  ghost predicate SkipsRight(sha: seq<byte> -> Hash, r: Root, w: World) {
    w.file.Some? && Skips(r, w.file.value.mtime, |w.file.value.content|, w.clock) ==>
      r.hash == sha(w.file.value.content)
  }

  /** Skipping the hash is safe exactly for roots that a calm scan dated. */
  lemma {:induction false} SkippingIsSafeExactly(sha: seq<byte> -> Hash, slack: nat, m: Instant, obs: Instant)
    requires sha([0]) != sha([1]) && HasFuture(Later(obs, Latest(m)))
    ensures SkippingIsSafe(sha, slack, m, obs) <==> Latest(m) + slack < obs
  {
    if Latest(m) + slack < obs {
      NeverStaleExactly(sha, slack, m, obs);
      forall w, es, w', p | Start(w) && Runs(sha, slack, w, es, w') && ReadPublished(w', p, m, obs)
        ensures SkipsRight(sha, p.root, w')
      {
        assert RootTrue(sha, p.root, w'.file);
      }
    } else {
      var w, es, w', p := RacyRootGoesStale(sha, slack, m, obs);
      var tick := Tick(w'.clock + 4 * NANOS);
      RunSnoc(sha, slack, w, es, w', tick);
      assert !SkipsRight(sha, p.root, Step(sha, slack, w', tick));
    }
  }
}
