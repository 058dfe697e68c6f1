/**
 * The file-registry pallet: a map from content id to file record, a global
 * file counter and two side indices, changed by one transition, `create_file`.
 *
 * The module has three layers, following the pallet:
 *  - the data model (the `File` record, `FileType`, errors, events, storage);
 *  - the validation of a registration (`CheckCreate`) and the registration
 *    itself as a function on storage values (`CreateFileStep`);
 *  - the pallet as a class whose fields are the storage items and whose
 *    method `CreateFile` updates them in place, proved against `CreateFileStep`.
 */
module FileStorage {

  // ---------------------------------------------------------------------------
  // Machine integers and opaque runtime types
  // ---------------------------------------------------------------------------

  newtype u8 = x: int | 0 <= x < 0x100
  newtype u32 = x: int | 0 <= x < 0x1_0000_0000
  newtype u64 = x: int | 0 <= x < 0x1_0000_0000_0000_0000

  const U64_MAX: int := 0xFFFF_FFFF_FFFF_FFFF
  /** The number of values of a `u64`: counters wrap modulo this. */
  const U64_MODULUS: int := 0x1_0000_0000_0000_0000

  /** An authenticated account; the runtime resolves it from the origin. */
  type AccountId = nat
  /** A content id: the runtime's hash type, used only as a map key here. */
  type Hash = nat
  /** An amount of the runtime's currency; no arithmetic is done on it here. */
  type Balance = nat

  datatype Option<T> = None | Some(value: T)

  // ---------------------------------------------------------------------------
  // Data model
  // ---------------------------------------------------------------------------

  datatype FileType = Pdf | Image | Text | Doc | Audio | Video | Other

  /** One registered file. `fileLink` is a bounded vector in the pallet: its
      length bound is part of `WellFormed` below. */
  datatype File = File(
    price: Option<Balance>,
    owner: AccountId,
    fileType: FileType,
    fileLink: seq<u8>,
    allowDownload: bool,
    fileSize: u32)

  /** The error kinds `create_file` can report. */
  datatype Error = AlreadyUploaded | LinkTooLong | LinkTooShort

  /** The outcome of a dispatchable call. */
  datatype DispatchResult = Ok | Err(error: Error)

  /** The events the pallet deposits. */
  datatype Event = FileCreated(who: AccountId, cid: Hash)

  /** The pallet's configuration constants. */
  datatype Config = Config(maxFileOwned: u32, minLength: u32, maxLength: u32)

  /** The pallet's storage items, plus the events it has deposited so far. */
  datatype Storage = Storage(
    fileCnt: u64,
    files: map<Hash, File>,
    filesOwned: map<AccountId, seq<Hash>>,
    cntFileDownloaded: map<Hash, u64>,
    events: seq<Event>)

  /** A `create_file` call with its (already authenticated) sender. */
  datatype Call = CreateFileCall(
    sender: AccountId,
    cid: Hash,
    cost: Option<Balance>,
    fileType: Option<FileType>,
    fileLink: seq<u8>,
    allowDownload: bool,
    fileSize: u32)

  /** The result of a call together with the storage it leaves behind. */
  datatype Outcome = Outcome(result: DispatchResult, post: Storage)

  /** The storage before any call: the value-query defaults. */
  function Genesis(): (s: Storage)
  {
    Storage(0, map[], map[], map[], [])
  }

  /** The type-level bounds of the storage items (bounded vectors), the
      link lower bound that the only writer of `files` establishes, and
      `FileCnt` as "the number of Files in existence", up to the u64 wrap. */
  predicate WellFormed(cfg: Config, s: Storage)
  {
    && s.fileCnt as int == |s.files| % U64_MODULUS
    && (forall cid :: cid in s.files ==>
          cfg.minLength as int <= |s.files[cid].fileLink| <= cfg.maxLength as int)
    && (forall who :: who in s.filesOwned ==>
          |s.filesOwned[who]| <= cfg.maxFileOwned as int)
  }

  // ---------------------------------------------------------------------------
  // Registration as a function on storage values
  // ---------------------------------------------------------------------------

  /** `cnt += 1` on a `u64`, as it behaves in a release build (no overflow check). */
  function IncrementCnt(cnt: u64): (r: u64)
    ensures cnt as int < U64_MAX ==> r as int == cnt as int + 1
    ensures cnt as int == U64_MAX ==> r == 0
  {
    ((cnt as int + 1) % U64_MODULUS) as u64
  }

  /** Incrementing a counter that is `n` modulo 2^64 gives `n + 1` modulo 2^64. */
  lemma {:induction false} IncrementCntTracksCount(n: nat, cnt: u64)
    ensures cnt as int == n % U64_MODULUS ==> IncrementCnt(cnt) as int == (n + 1) % U64_MODULUS
  {
    if cnt as int == n % U64_MODULUS {
      var q := n / U64_MODULUS;
      assert n == q * U64_MODULUS + cnt as int;
      if cnt as int < U64_MAX {
        assert n + 1 == q * U64_MODULUS + (cnt as int + 1);
      } else {
        assert n + 1 == (q + 1) * U64_MODULUS;
      }
    }
  }

  /** The checks `create_file` makes, in its order; `None` when all pass. */
  function CheckCreate(cfg: Config, files: map<Hash, File>, cid: Hash, fileLink: seq<u8>): (e: Option<Error>)
    ensures e == Some(AlreadyUploaded) <==> cid in files
    ensures e == Some(LinkTooLong) <==> cid !in files && |fileLink| > cfg.maxLength as int
    ensures e == Some(LinkTooShort) <==>
              cid !in files && |fileLink| <= cfg.maxLength as int && |fileLink| < cfg.minLength as int
    ensures e == None <==>
              cid !in files && cfg.minLength as int <= |fileLink| <= cfg.maxLength as int
  {
    if cid in files then Some(AlreadyUploaded)
    else if |fileLink| > cfg.maxLength as int then Some(LinkTooLong)
    else if |fileLink| < cfg.minLength as int then Some(LinkTooShort)
    else None
  }

  /** The record `create_file` stores for a call that passes the checks. */
  function NewFile(c: Call): (f: File)
  {
    File(c.cost, c.sender, if c.fileType.Some? then c.fileType.value else Other,
         c.fileLink, c.allowDownload, c.fileSize)
  }

  /** `create_file` on a storage value. */
  function CreateFileStep(cfg: Config, s: Storage, c: Call): (o: Outcome)
    // the result is the first failing check, or Ok
    ensures o.result.Ok? <==> CheckCreate(cfg, s.files, c.cid, c.fileLink) == None
    ensures o.result.Err? ==> Some(o.result.error) == CheckCreate(cfg, s.files, c.cid, c.fileLink)
    // a failure changes nothing and deposits no event
    ensures o.result.Err? ==> o.post == s
    // a success registers exactly the caller's file at cid
    ensures o.result.Ok? ==>
              && c.cid in o.post.files
              && o.post.files[c.cid].owner == c.sender
              && o.post.files[c.cid].price == c.cost
              && o.post.files[c.cid].fileType == (if c.fileType.None? then Other else c.fileType.value)
              && o.post.files[c.cid].fileLink == c.fileLink
              && o.post.files[c.cid].allowDownload == c.allowDownload
              && o.post.files[c.cid].fileSize == c.fileSize
    // ... adds no other key and keeps every other record
    ensures o.result.Ok? ==> o.post.files.Keys == s.files.Keys + {c.cid}
    ensures o.result.Ok? ==> forall k :: k in s.files ==> o.post.files[k] == s.files[k]
    // ... bumps the counter by one (wrapping at the u64 bound)
    ensures o.result.Ok? && s.fileCnt as int < U64_MAX ==> o.post.fileCnt as int == s.fileCnt as int + 1
    ensures o.result.Ok? && s.fileCnt as int == U64_MAX ==> o.post.fileCnt == 0
    ensures o.result.Ok? ==> o.post.events == s.events + [FileCreated(c.sender, c.cid)]
    // the side indices are never written
    ensures o.post.filesOwned == s.filesOwned && o.post.cntFileDownloaded == s.cntFileDownloaded
  {
    match CheckCreate(cfg, s.files, c.cid, c.fileLink)
    case Some(e) => Outcome(Err(e), s)
    case None => Outcome(Ok, Insert(s, c))
  }

  /** `create_file` keeps the storage invariant, whether it succeeds or fails. */
  lemma StepKeepsWellFormed(cfg: Config, s: Storage, c: Call)
    requires WellFormed(cfg, s)
    ensures WellFormed(cfg, CreateFileStep(cfg, s, c).post)
  {
    if CheckCreate(cfg, s.files, c.cid, c.fileLink) == None {
      InsertKeepsWellFormed(cfg, s, c);
    }
  }

  /** The storage after a registration that passed the checks. */
  function Insert(s: Storage, c: Call): (t: Storage)
  {
    s.(files := s.files[c.cid := NewFile(c)],
       fileCnt := IncrementCnt(s.fileCnt),
       events := s.events + [FileCreated(c.sender, c.cid)])
  }

  /** A registration that passed the checks keeps the storage bounds and the
      counter equal to the number of files, modulo 2^64. */
  lemma InsertKeepsWellFormed(cfg: Config, s: Storage, c: Call)
    requires CheckCreate(cfg, s.files, c.cid, c.fileLink) == None
    ensures WellFormed(cfg, s) ==> WellFormed(cfg, Insert(s, c))
  {
    if WellFormed(cfg, s) {
      var t := Insert(s, c);
      assert |t.files.Keys| == |s.files.Keys| + 1;
      IncrementCntTracksCount(|s.files|, s.fileCnt);
      assert t.fileCnt as int == |t.files| % U64_MODULUS;
    }
  }

  // ---------------------------------------------------------------------------
  // The pallet, with its storage updated in place
  // ---------------------------------------------------------------------------

  class Pallet {
    const maxFileOwned: u32
    const minLength: u32
    const maxLength: u32

    var fileCnt: u64
    var files: map<Hash, File>
    var filesOwned: map<AccountId, seq<Hash>>
    var cntFileDownloaded: map<Hash, u64>
    /** The events deposited by this pallet, oldest first. */
    var events: seq<Event>

    function Cfg(): (cfg: Config)
    {
      Config(maxFileOwned, minLength, maxLength)
    }

    /** The abstract value of the pallet's storage. */
    function State(): (s: Storage)
      reads this
    {
      Storage(fileCnt, files, filesOwned, cntFileDownloaded, events)
    }

    ghost predicate Valid()
      reads this
    {
      WellFormed(Cfg(), State())
    }

    /** A pallet instance with the given constants and genesis storage. */
    constructor (maxFileOwned: u32, minLength: u32, maxLength: u32)
      ensures Valid()
      ensures Cfg() == Config(maxFileOwned, minLength, maxLength)
      ensures State() == Genesis()
    {
      this.maxFileOwned := maxFileOwned;
      this.minLength := minLength;
      this.maxLength := maxLength;
      fileCnt := 0;
      files := map[];
      filesOwned := map[];
      cntFileDownloaded := map[];
      events := [];
    }

    /** The `file_cnt` getter: the number of files in existence, up to the u64 wrap. */
    function FileCnt(): (r: u64)
      reads this
      ensures Valid() ==> r as int == |files| % U64_MODULUS
      ensures Valid() && |files| <= U64_MAX ==> r as int == |files|
    {
      fileCnt
    }

    /** The `files` getter: an optional query. */
    function Files(cid: Hash): (r: Option<File>)
      reads this
      ensures r.Some? <==> cid in State().files
      ensures r.Some? ==> r.value == State().files[cid]
      ensures Valid() && r.Some? ==> minLength as int <= |r.value.fileLink| <= maxLength as int
    {
      if cid in files then Some(files[cid]) else None
    }

    /** The `files_owned` getter: a value query, empty when absent. */
    function FilesOwned(who: AccountId): (r: seq<Hash>)
      reads this
      ensures who in State().filesOwned ==> r == State().filesOwned[who]
      ensures who !in State().filesOwned ==> r == []
      ensures Valid() ==> |r| <= maxFileOwned as int
    {
      if who in filesOwned then filesOwned[who] else []
    }

    /** `create_file`, called by the already authenticated `sender`. */
    method CreateFile(sender: AccountId, cid: Hash, cost: Option<Balance>, fileType: Option<FileType>,
                      fileLink: seq<u8>, allowDownload: bool, fileSize: u32)
      returns (r: DispatchResult)
      requires Valid()
      modifies this
      ensures Valid()
      ensures Outcome(r, State()) ==
              CreateFileStep(Cfg(), old(State()),
                             CreateFileCall(sender, cid, cost, fileType, fileLink, allowDownload, fileSize))
      ensures r == Err(AlreadyUploaded) <==> cid in old(files)
      ensures r.Err? ==> unchanged(this)
      ensures r.Ok? ==> files == old(files)[cid := NewFile(CreateFileCall(sender, cid, cost, fileType,
                                                                           fileLink, allowDownload, fileSize))]
      ensures r.Ok? ==> fileCnt == IncrementCnt(old(fileCnt))
      ensures r.Ok? ==> events == old(events) + [FileCreated(sender, cid)]
      ensures filesOwned == old(filesOwned) && cntFileDownloaded == old(cntFileDownloaded)
    {
      ghost var call := CreateFileCall(sender, cid, cost, fileType, fileLink, allowDownload, fileSize);
      if cid in files {
        return Err(AlreadyUploaded);
      }
      if |fileLink| > maxLength as int {
        return Err(LinkTooLong);
      }
      if |fileLink| < minLength as int {
        return Err(LinkTooShort);
      }
      StepKeepsWellFormed(Cfg(), State(), call);
      var file := NewFile(CreateFileCall(sender, cid, cost, fileType, fileLink, allowDownload, fileSize));
      files := files[cid := file];
      var cnt := fileCnt;
      cnt := IncrementCnt(cnt);
      fileCnt := cnt;
      events := events + [FileCreated(sender, cid)];
      assert State() == Insert(old(State()), call);
      return Ok;
    }
  }
}
