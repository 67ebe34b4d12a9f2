/** Creating and verifying full-stack backup manifests (deploy/ops/backup-manifest.py).

    Files are digested by the free constructor `Sha256`. A tree of regular files is summarized by
    the free constructor `TreeSummary` of its records by path; TreeDigest shows that the hashed
    stream determines those records. */
module BackupManifest {
  import opened Basics

  datatype Database = Orchestrator | Auth | Problem | Judge | User

  /** Payload paths by the role the layout gives them. */
  datatype Path =
    | ManifestJson
    | Sha256Sums
    | Dump(db: Database)
    | DumpList(db: Database)
    | RedisRdb
    | RedisCheck
    | LocalArchive
    | BucketFile(bucket: string, name: string)
    | RetainedArchive
    | RetainedIdentity
    | RetainedInventory
    | Other(name: string)

  datatype Digest = Sha256(of: File)

  datatype FileInfo = FileInfo(bytes: nat, sha256: Digest)

  /** The records of a tree by path. */
  type Records = map<string, FileInfo>

  datatype Summary = TreeSummary(of: Records)

  datatype Content =
    | Blob(data: seq<int>)
    | Tar(records: Records)
    | Inventory(tree: Summary, records: Records)
    | Identity(identitySha256: int)
    | Manifested(manifest: Manifest)
    | Sums(sums: map<Path, Digest>)

  datatype File = File(size: nat, content: Content)

  datatype Bucket = Bucket(name: string, tree: Summary)

  datatype Components = Components(
    redis: Option<bool>,              // included, with or without its check file
    local: Option<Summary>,
    minio: Option<seq<Bucket>>,
    retainedIdentity: int, retainedTree: Summary)

  datatype Manifest = Manifest(environment: string, sourceId: string, components: Components, payload: map<Path, FileInfo>)

  /** A backup directory: its regular files, and the directories below storage/minio in order. */
  datatype Root = Root(files: map<Path, File>, bucketDirs: seq<string>)

  /** What the operator passes to `create`. */
  datatype Arguments = Arguments(
    environment: string, sourceId: string,
    redis: bool, localSource: Option<Records>, buckets: seq<string>, retainedSource: Records)

  const CONTROL: set<Path> := {ManifestJson, Sha256Sums}

  function Info(f: File): FileInfo {
    FileInfo(f.size, Sha256(f))
  }

  function Infos(files: map<Path, File>): map<Path, FileInfo> {
    map p | p in files :: Info(files[p])
  }

  /** The records below one bucket directory. */
  function BucketRecords(root: Root, bucket: string): Records {
    map p | p in root.files && p.BucketFile? && p.bucket == bucket :: p.name := Info(root.files[p])
  }

  function BucketPaths(root: Root, bucket: string): set<Path> {
    set p | p in root.files && p.BucketFile? && p.bucket == bucket
  }

  function DatabaseFiles(): set<Path> {
    {Dump(Orchestrator), Dump(Auth), Dump(Problem), Dump(Judge), Dump(User),
     DumpList(Orchestrator), DumpList(Auth), DumpList(Problem), DumpList(Judge), DumpList(User)}
  }

  function RedisFiles(redis: Option<bool>): set<Path> {
    if redis.None? then {} else if redis.value then {RedisRdb, RedisCheck} else {RedisRdb}
  }

  // ----- components -----------------------------------------------------------------------

  predicate IsTar(root: Root, p: Path, records: Summary) {
    p in root.files && root.files[p].content.Tar? && TreeSummary(root.files[p].content.records) == records
  }

  predicate LocalOk(root: Root, local: Option<Summary>) {
    local.Some? ==> IsTar(root, LocalArchive, local.value)
  }

  /** The identity, the inventory and the archive of the retained volume agree. */
  predicate RetainedOk(root: Root, identity: int, tree: Summary) {
    && RetainedIdentity in root.files && root.files[RetainedIdentity].content == Identity(identity)
    && RetainedInventory in root.files && root.files[RetainedInventory].content.Inventory?
    && var inventory := root.files[RetainedInventory].content;
       && inventory.tree == TreeSummary(inventory.records) && inventory.tree == tree
       && IsTar(root, RetainedArchive, tree)
       && root.files[RetainedArchive].content.records == inventory.records
  }

  predicate BucketNamesOk(root: Root, names: seq<string>) {
    names != [] && root.bucketDirs == names
  }

  ghost predicate BucketsOk(root: Root, minio: Option<seq<Bucket>>) {
    minio.Some? ==>
      && BucketNamesOk(root, Names(minio.value))
      && forall i :: 0 <= i < |minio.value| ==> TreeSummary(BucketRecords(root, minio.value[i].name)) == minio.value[i].tree
  }

  function Names(buckets: seq<Bucket>): (names: seq<string>)
    ensures |names| == |buckets| && forall i :: 0 <= i < |buckets| ==> names[i] == buckets[i].name
  {
    seq(|buckets|, i requires 0 <= i < |buckets| => buckets[i].name)
  }

  ghost predicate ComponentsOk(root: Root, c: Components) {
    LocalOk(root, c.local) && BucketsOk(root, c.minio) && RetainedOk(root, c.retainedIdentity, c.retainedTree)
  }

  ghost function ComponentPaths(root: Root, c: Components): set<Path> {
    DatabaseFiles() + RedisFiles(c.redis)
    + (if c.local.Some? then {LocalArchive} else {})
    + (if c.minio.Some? then AllBucketPaths(root, c.minio.value) else {})
    + {RetainedArchive, RetainedIdentity, RetainedInventory}
  }

  ghost function AllBucketPaths(root: Root, buckets: seq<Bucket>): set<Path> {
    set i, p | 0 <= i < |buckets| && p in BucketPaths(root, buckets[i].name) :: p
  }

  /** `_component_files`: checks every declared component and collects its payload paths. */
  method ComponentFiles(root: Root, c: Components) returns (expected: Option<set<Path>>)
    ensures expected.Some? <==> ComponentsOk(root, c)
    ensures expected.Some? ==> expected.value == ComponentPaths(root, c)
  {
    var paths := DatabaseFiles() + RedisFiles(c.redis);
    if c.local.Some? {
      if !IsTar(root, LocalArchive, c.local.value) { return None; }
      paths := paths + {LocalArchive};
    }
    if c.minio.Some? {
      var found := BucketFiles(root, c.minio.value);
      if found.None? || !BucketNamesOk(root, Names(c.minio.value)) { return None; }
      paths := paths + found.value;
    }
    if !RetainedOk(root, c.retainedIdentity, c.retainedTree) { return None; }
    return Some(paths + {RetainedArchive, RetainedIdentity, RetainedInventory});
  }

  method BucketFiles(root: Root, buckets: seq<Bucket>) returns (found: Option<set<Path>>)
    ensures found.Some? <==>
            forall i :: 0 <= i < |buckets| ==> TreeSummary(BucketRecords(root, buckets[i].name)) == buckets[i].tree
    ensures found.Some? ==> found.value == AllBucketPaths(root, buckets)
  {
    hide BucketRecords, BucketPaths, AllBucketPaths;
    var paths: set<Path> := {};
    NoBuckets(root);
    for i := 0 to |buckets|
      invariant paths == AllBucketPaths(root, buckets[..i])
      invariant forall j :: 0 <= j < i ==> TreeSummary(BucketRecords(root, buckets[j].name)) == buckets[j].tree
    {
      if TreeSummary(BucketRecords(root, buckets[i].name)) != buckets[i].tree { return None; }
      MoreBuckets(root, buckets, i);
      paths := paths + BucketPaths(root, buckets[i].name);
    }
    assert buckets[..|buckets|] == buckets;
    return Some(paths);
  }

  lemma NoBuckets(root: Root)
    ensures AllBucketPaths(root, []) == {}
  {
  }

  lemma MoreBuckets(root: Root, buckets: seq<Bucket>, i: nat)
    requires i < |buckets|
    ensures AllBucketPaths(root, buckets[..i+1]) == AllBucketPaths(root, buckets[..i]) + BucketPaths(root, buckets[i].name)
  {
    var a, b := buckets[..i], buckets[..i+1];
    assert b[i] == buckets[i] && forall j :: 0 <= j < i ==> b[j] == a[j];
    forall p | p in AllBucketPaths(root, a) ensures p in AllBucketPaths(root, b) {
      var j :| 0 <= j < |a| && p in BucketPaths(root, a[j].name);
      assert p in BucketPaths(root, b[j].name);
    }
    forall p | p in BucketPaths(root, buckets[i].name) ensures p in AllBucketPaths(root, b) {
      assert p in BucketPaths(root, b[i].name);
    }
  }

  // ----- create ---------------------------------------------------------------------------

  /** The components `create` declares for a directory. */
  function Declared(root: Root, args: Arguments): Components {
    Components(
      if args.redis then Some(RedisCheck in root.files) else None,
      if args.localSource.Some? then Some(TreeSummary(args.localSource.value)) else None,
      if args.buckets == [] then None
      else Some(seq(|args.buckets|, i requires 0 <= i < |args.buckets| =>
                      Bucket(args.buckets[i], TreeSummary(BucketRecords(root, args.buckets[i]))))),
      if RetainedIdentity in root.files && root.files[RetainedIdentity].content.Identity?
      then root.files[RetainedIdentity].content.identitySha256 else 0,
      TreeSummary(args.retainedSource))
  }

  /** The live sources are exactly what the archives and the inventory hold. */
  predicate SourcesOk(root: Root, args: Arguments) {
    && (args.localSource.Some? ==> IsTar(root, LocalArchive, TreeSummary(args.localSource.value)))
    && RetainedIdentity in root.files && root.files[RetainedIdentity].content.Identity?
    && RetainedInventory in root.files
    && root.files[RetainedInventory].content == Inventory(TreeSummary(args.retainedSource), args.retainedSource)
    && RetainedArchive in root.files && root.files[RetainedArchive].content == Tar(args.retainedSource)
  }

  /** When `create` succeeds. */
  ghost predicate Creatable(root: Root, args: Arguments) {
    && root.files.Keys !! CONTROL
    && SourcesOk(root, args)
    && ComponentsOk(root, Declared(root, args))
    && root.files.Keys == ComponentPaths(root, Declared(root, args))
  }

  function Created(root: Root, args: Arguments): Manifest {
    Manifest(args.environment, args.sourceId, Declared(root, args), Infos(root.files))
  }

  /** `create_manifest`, up to writing the file. */
  method CreateManifest(root: Root, args: Arguments) returns (m: Option<Manifest>)
    ensures m.Some? <==> Creatable(root, args)
    ensures m.Some? ==> m.value == Created(root, args)
  {
    if ManifestJson in root.files || Sha256Sums in root.files { return None; }
    if !SourcesOk(root, args) { return None; }
    var components := Declared(root, args);
    var expected := ComponentFiles(root, components);
    if expected.None? || root.files.Keys != expected.value { return None; }
    return Some(Manifest(args.environment, args.sourceId, components, Infos(root.files)));
  }

  // ----- verify ---------------------------------------------------------------------------

  ghost predicate MetadataMatches(root: Root, payload: map<Path, FileInfo>) {
    forall p :: p in payload ==> p in root.files && Info(root.files[p]) == payload[p]
  }

  ghost predicate SumsMatch(root: Root, sums: map<Path, Digest>) {
    forall p :: p in sums ==> p in root.files && Sha256(root.files[p]) == sums[p]
  }

  /** When `verify` succeeds. */
  ghost predicate Verifies(root: Root, environment: string, sourceId: Option<string>) {
    && ManifestJson in root.files && root.files[ManifestJson].content.Manifested?
    && var m := root.files[ManifestJson].content.manifest;
       && m.payload.Keys !! CONTROL
       && m.environment == environment && (sourceId.Some? ==> m.sourceId == sourceId.value)
       && ComponentsOk(root, m.components) && ComponentPaths(root, m.components) == m.payload.Keys
       && root.files.Keys == m.payload.Keys + CONTROL
       && MetadataMatches(root, m.payload)
       && root.files[Sha256Sums].content.Sums?
       && root.files[Sha256Sums].content.sums.Keys == m.payload.Keys + {ManifestJson}
       && SumsMatch(root, root.files[Sha256Sums].content.sums)
  }

  /** `verify_manifest`. */
  method VerifyManifest(root: Root, environment: string, sourceId: Option<string>) returns (ok: bool)
    ensures ok <==> Verifies(root, environment, sourceId)
  {
    hide ComponentsOk, ComponentPaths;
    if ManifestJson !in root.files || !root.files[ManifestJson].content.Manifested? { return false; }
    var m := root.files[ManifestJson].content.manifest;
    if ManifestJson in m.payload || Sha256Sums in m.payload { return false; }
    if m.environment != environment || (sourceId.Some? && m.sourceId != sourceId.value) { return false; }
    var paths := ComponentFiles(root, m.components);
    if paths.None? || paths.value != m.payload.Keys { return false; }
    if root.files.Keys != m.payload.Keys + CONTROL { return false; }
    var todo := m.payload.Keys;
    while todo != {}
      invariant todo <= m.payload.Keys
      invariant forall p :: p in m.payload.Keys - todo ==> Info(root.files[p]) == m.payload[p]
    {
      var p :| p in todo;
      if Info(root.files[p]) != m.payload[p] { return false; }
      todo := todo - {p};
    }
    if !root.files[Sha256Sums].content.Sums? { return false; }
    var sums := root.files[Sha256Sums].content.sums;
    if sums.Keys != m.payload.Keys + {ManifestJson} { return false; }
    todo := sums.Keys;
    while todo != {}
      invariant todo <= sums.Keys
      invariant forall p :: p in sums.Keys - todo ==> Sha256(root.files[p]) == sums[p]
    {
      var p :| p in todo;
      if Sha256(root.files[p]) != sums[p] { return false; }
      todo := todo - {p};
    }
    return true;
  }

  // ----- create and verify are inverse ----------------------------------------------------

  /** The directory after writing the manifest and a checksum file beside the payload. */
  function Sealed(root: Root, manifest: File, sums: File): Root {
    root.(files := root.files[ManifestJson := manifest][Sha256Sums := sums])
  }

  /** Control files are no component's payload, so adding them changes no component check. */
  lemma ControlFilesDoNotMatter(root: Root, manifest: File, sums: File, c: Components)
    requires root.files.Keys !! CONTROL
    ensures ComponentsOk(root, c) <==> ComponentsOk(Sealed(root, manifest, sums), c)
    ensures ComponentPaths(root, c) == ComponentPaths(Sealed(root, manifest, sums), c)
  {
    var root' := Sealed(root, manifest, sums);
    forall bucket: string
      ensures BucketRecords(root', bucket) == BucketRecords(root, bucket)
      ensures BucketPaths(root', bucket) == BucketPaths(root, bucket)
    {
      assert BucketPaths(root', bucket) == BucketPaths(root, bucket);
    }
    if c.minio.Some? {
      assert AllBucketPaths(root, c.minio.value) == AllBucketPaths(root', c.minio.value);
    }
  }

  /** What `create` seals, `verify` accepts, given a checksum file that lists exactly the
      digests of the payload and of the manifest. */
  lemma CreateThenVerify(root: Root, args: Arguments, manifest: File, sums: File)
    requires Creatable(root, args)
    requires manifest.content == Manifested(Created(root, args))
    requires sums.content == Sums((map p | p in root.files :: Sha256(root.files[p]))[ManifestJson := Sha256(manifest)])
    ensures Verifies(Sealed(root, manifest, sums), args.environment, None)
    ensures Verifies(Sealed(root, manifest, sums), args.environment, Some(args.sourceId))
  {
    hide ComponentsOk, ComponentPaths, Declared, SourcesOk;
    ControlFilesDoNotMatter(root, manifest, sums, Declared(root, args));
  }

  /** A manifest pins the payload: whatever verifies against it has, file by file, the content
      it was created from, and no other payload file. */
  lemma VerifyPinsPayload(root: Root, args: Arguments, restored: Root, environment: string, sourceId: Option<string>)
    requires Creatable(root, args)
    requires Verifies(restored, environment, sourceId)
    requires restored.files[ManifestJson].content == Manifested(Created(root, args))
    ensures restored.files - CONTROL == root.files
    ensures environment == args.environment && (sourceId.Some? ==> sourceId.value == args.sourceId)
  {
    hide ComponentsOk, ComponentPaths, Declared, SourcesOk, SumsMatch;
    var payload := Infos(root.files);
    assert restored.files.Keys == root.files.Keys + CONTROL;
    forall p | p in root.files ensures restored.files[p] == root.files[p] {
      assert payload[p] == Info(root.files[p]);
    }
  }

  /** Two directories that verify against one manifest hold the same payload. */
  lemma SameManifestSamePayload(a: Root, b: Root, environment: string, sourceId: Option<string>)
    requires Verifies(a, environment, sourceId) && Verifies(b, environment, sourceId)
    requires a.files[ManifestJson].content == b.files[ManifestJson].content
    ensures a.files - CONTROL == b.files - CONTROL
  {
    var payload := a.files[ManifestJson].content.manifest.payload;
    forall p | p in payload ensures a.files[p] == b.files[p] {
      assert Info(a.files[p]) == payload[p] == Info(b.files[p]);
    }
  }

  // ----- what a verified backup holds -------------------------------------------------------

  /** What the components say about each path. */
  ghost predicate Belongs(p: Path, c: Components) {
    match p
    case ManifestJson => true
    case Sha256Sums => true
    case Dump(_) => true
    case DumpList(_) => true
    case RedisRdb => c.redis.Some?
    case RedisCheck => c.redis == Some(true)
    case LocalArchive => c.local.Some?
    case BucketFile(bucket, _) => c.minio.Some? && exists i :: 0 <= i < |c.minio.value| && c.minio.value[i].name == bucket
    case RetainedArchive => true
    case RetainedIdentity => true
    case RetainedInventory => true
    case Other(_) => false
  }

  /** What verifies holds the dump of every database and all else its components declare, and
      nothing that they do not. Objects of a bucket are there if the bucket is declared. */
  lemma LayoutIsExact(root: Root, environment: string, sourceId: Option<string>, p: Path)
    requires Verifies(root, environment, sourceId)
    ensures var c := root.files[ManifestJson].content.manifest.components;
            if p.BucketFile? then p in root.files ==> Belongs(p, c) else p in root.files <==> Belongs(p, c)
  {
    hide MetadataMatches, SumsMatch, ComponentsOk, ComponentPaths;
    PathBelongs(root, root.files[ManifestJson].content.manifest.components, p);
  }

  lemma PathBelongs(root: Root, c: Components, p: Path)
    ensures if p.BucketFile? then p in ComponentPaths(root, c) <==> p in root.files && Belongs(p, c)
            else p in ComponentPaths(root, c) + CONTROL <==> Belongs(p, c)
  {
    OneDumpEach(p);
    hide DatabaseFiles;
    if p.BucketFile? {
      if p in ComponentPaths(root, c) { assert p in AllBucketPaths(root, c.minio.value); }
      if p in root.files && Belongs(p, c) {
        var i :| 0 <= i < |c.minio.value| && c.minio.value[i].name == p.bucket;
        assert p in BucketPaths(root, c.minio.value[i].name);
      }
    }
  }

  lemma OneDumpEach(p: Path)
    ensures p in DatabaseFiles() <==> p.Dump? || p.DumpList?
  {
    if p.Dump? || p.DumpList? {
      match p.db {
        case Orchestrator =>
        case Auth =>
        case Problem =>
        case Judge =>
        case User =>
      }
    }
  }

  /** The retained archive, its inventory and the manifest agree on one set of records; so do the
      local archive and the manifest, and every bucket directory and its declared tree. */
  lemma ContentAgrees(root: Root, environment: string, sourceId: Option<string>)
    requires Verifies(root, environment, sourceId)
    ensures var c := root.files[ManifestJson].content.manifest.components;
            && RetainedArchive in root.files && RetainedInventory in root.files && RetainedIdentity in root.files
            && root.files[RetainedArchive].content == Tar(c.retainedTree.of)
            && root.files[RetainedInventory].content == Inventory(c.retainedTree, c.retainedTree.of)
            && root.files[RetainedIdentity].content == Identity(c.retainedIdentity)
            && (c.local.Some? ==> LocalArchive in root.files && root.files[LocalArchive].content == Tar(c.local.value.of))
            && (c.minio.Some? ==> |root.bucketDirs| == |c.minio.value| > 0)
            && (c.minio.Some? ==> forall i :: 0 <= i < |c.minio.value| ==> HoldsTree(root, root.bucketDirs[i], c.minio.value[i].tree))
    ensures root.files[Sha256Sums].content == Sums(map p | p in root.files && p != Sha256Sums :: Sha256(root.files[p]))
  {
    hide MetadataMatches, ComponentPaths;
    var c := root.files[ManifestJson].content.manifest.components;
    if c.minio.Some? {
      forall i | 0 <= i < |c.minio.value| ensures HoldsTree(root, root.bucketDirs[i], c.minio.value[i].tree) {
        assert TreeSummary(BucketRecords(root, c.minio.value[i].name)) == c.minio.value[i].tree;
        RecordsOfBucket(root, c.minio.value[i].name);
      }
    }
  }

  /** The files below the bucket's directory are those of the tree. */
  ghost predicate HoldsTree(root: Root, bucket: string, tree: Summary) {
    forall name :: (name in tree.of <==> BucketFile(bucket, name) in root.files)
                   && (name in tree.of ==> tree.of[name] == FileInfo(root.files[BucketFile(bucket, name)].size,
                                                                     Sha256(root.files[BucketFile(bucket, name)])))
  }

  lemma RecordsOfBucket(root: Root, bucket: string)
    ensures HoldsTree(root, bucket, TreeSummary(BucketRecords(root, bucket)))
  {
    var records := BucketRecords(root, bucket);
    forall name ensures name in records <==> BucketFile(bucket, name) in root.files {
      if BucketFile(bucket, name) in root.files { assert BucketFile(bucket, name).name in records; }
    }
  }

  /** The arguments call for the file, or allow it where the directory decides. */
  ghost predicate Due(root: Root, args: Arguments, p: Path) {
    match p
    case ManifestJson => false
    case Sha256Sums => false
    case RedisRdb => args.redis
    case RedisCheck => args.redis && p in root.files
    case LocalArchive => args.localSource.Some?
    case BucketFile(bucket, _) => bucket in args.buckets && p in root.files
    case Other(_) => false
    case _ => true
  }

  ghost predicate Expected(root: Root, args: Arguments, p: Path) {
    p in root.files <==> Due(root, args, p)
  }

  /** When a manifest can be created: every path is there or not as the arguments say, the archives
      hold exactly the records of the live sources, the inventory lists them, and the buckets are
      the directories below storage/minio. */
  lemma CreatableExactly(root: Root, args: Arguments)
    ensures Creatable(root, args) <==>
            && (forall p :: Expected(root, args, p))
            && Holds(root, RetainedInventory, Inventory(TreeSummary(args.retainedSource), args.retainedSource))
            && Holds(root, RetainedArchive, Tar(args.retainedSource))
            && RetainedIdentity in root.files && root.files[RetainedIdentity].content.Identity?
            && (args.localSource.Some? ==> Holds(root, LocalArchive, Tar(args.localSource.value)))
            && (args.buckets != [] ==> root.bucketDirs == args.buckets)
  {
    PathsAsExpected(root, args);
    if SourcesOk(root, args) { ComponentsAsDeclared(root, args); }
    hide ComponentPaths, ComponentsOk, Declared, Expected;
  }

  ghost predicate Holds(root: Root, p: Path, content: Content) {
    p in root.files && root.files[p].content == content
  }

  lemma PathsAsExpected(root: Root, args: Arguments)
    ensures root.files.Keys == ComponentPaths(root, Declared(root, args)) && root.files.Keys !! CONTROL <==>
            forall p :: Expected(root, args, p)
  {
    var paths := ComponentPaths(root, Declared(root, args));
    forall p ensures (p in root.files <==> p in paths) && !(p in CONTROL && p in root.files) <==> Expected(root, args, p) {
      PathBelongs(root, Declared(root, args), p);
      if p !in CONTROL { BelongsAsExpected(root, args, p); }
      NoControlPaths(root, Declared(root, args));
    }
    hide ComponentPaths, Expected, Declared;
    if forall p :: Expected(root, args, p) {
      assert forall p :: Expected(root, args, p) ==> (p in root.files <==> p in paths);
    } else {
      var p :| !Expected(root, args, p);
      assert !((p in root.files <==> p in paths) && !(p in CONTROL && p in root.files));
    }
  }

  lemma NoControlPaths(root: Root, c: Components)
    ensures ComponentPaths(root, c) !! CONTROL
  {
  }

  lemma ComponentsAsDeclared(root: Root, args: Arguments)
    requires SourcesOk(root, args)
    ensures ComponentsOk(root, Declared(root, args)) <==> (args.buckets != [] ==> root.bucketDirs == args.buckets)
  {
    hide BucketRecords;
    if args.buckets != [] { assert Names(Declared(root, args).minio.value) == args.buckets; }
  }

  lemma BelongsAsExpected(root: Root, args: Arguments, p: Path)
    requires p !in CONTROL
    ensures Due(root, args, p) <==> Belongs(p, Declared(root, args)) && (p.BucketFile? ==> p in root.files)
  {
    if p.BucketFile? && args.buckets != [] {
      var buckets := Declared(root, args).minio.value;
      assert forall i :: 0 <= i < |args.buckets| ==> buckets[i].name == args.buckets[i];
    }
  }
}
