/** Directory trees of OJOS bundles and installations, and the verification every
    destructive step of the installer relies on (manager/installer/src/lib.rs).

    SHA-256 is the free constructor `Sha256`, so equal digests mean equal files. */
module InstallTree {
  import opened Basics

  const PRODUCT := 1
  const BUNDLE_SCHEMA_VERSION := 1

  /** Relative path of a regular file. The two control files have paths of their own. */
  datatype Path =
    | BundleManifest   // .ojos-bundle.json
    | InstallMarker    // .ojos-orchestrator-install.json
    | Payload(name: string)

  /** The manifest of a service, beside its release file. */
  predicate CompleteService(p: Path, paths: set<Path>) {
    p.Payload? &&
    var parts := Split(p.name, '/');
    && |parts| == 3 && parts[0] == "services" && parts[2] == "service.yaml"
    && Payload("services/" + parts[1] + "/release.yaml") in paths
  }

  /** `validate_required_layout`: the entry points and the services every bundle must ship. */
  predicate RequiredLayout(paths: set<Path>) {
    && Payload("bin/ojos-orchestrator") in paths
    && Payload("bin/ojos-orchestrator-daemon") in paths
    && Payload("bin/ojos-orchestrator-tui") in paths
    && Payload("bin/ojos-orchestrator-agent") in paths
    && Payload("bin/ojos-orchestrator-desktop") in paths
    && Payload("manager/web/dist/index.html") in paths
    && Payload("platform/schemas/orchestrator/actions-v1.yaml") in paths
    && Payload("store/index.json") in paths
    && (exists p :: p in paths && CompleteService(p, paths))
  }

  datatype Digest = Sha256(of: File)

  datatype BundleFile = BundleFile(path: Path, size: nat, sha256: Digest)

  datatype Content =
    | Bytes(data: seq<int>)
    | Marker(product: int, version: string, bundleSha256: Digest, installedAt: int)
    | Manifest(schemaVersion: int, product: int, version: string, files: seq<BundleFile>)

  datatype File = File(size: nat, content: Content)

  /** A directory: its regular files by normalized relative path. */
  datatype Tree = Tree(files: map<Path, File>)

  /** The control files that a manifest does not list. */
  function ControlFiles(installed: bool): set<Path> {
    if installed then {BundleManifest, InstallMarker} else {BundleManifest}
  }

  ghost function Paths(listed: seq<BundleFile>): set<Path> {
    set i | 0 <= i < |listed| :: listed[i].path
  }

  ghost predicate Listed(tree: Tree, file: BundleFile) {
    && file.path in tree.files
    && tree.files[file.path].size == file.size
    && Sha256(tree.files[file.path]) == file.sha256
  }

  ghost predicate NoDuplicates(listed: seq<BundleFile>) {
    forall i, j :: 0 <= i < j < |listed| ==> listed[i].path != listed[j].path
  }

  /** The list names every file of the tree exactly once, except the control files,
      with its size and digest, and names nothing else. */
  ghost predicate ExactlyLists(tree: Tree, listed: seq<BundleFile>, installed: bool) {
    && NoDuplicates(listed)
    && (forall i :: 0 <= i < |listed| ==> Listed(tree, listed[i]))
    && Paths(listed) == tree.files.Keys - ControlFiles(installed)
  }

  /** `verify_manifest_files`: one pass over the declared files, then the file sets
      are compared. */
  method VerifyManifestFiles(tree: Tree, listed: seq<BundleFile>, installed: bool) returns (ok: bool)
    ensures ok <==> ExactlyLists(tree, listed, installed)
  {
    var declared: set<Path> := {};
    for i := 0 to |listed|
      invariant declared == Paths(listed[..i])
      invariant NoDuplicates(listed[..i])
      invariant forall j :: 0 <= j < i ==> Listed(tree, listed[j])
    {
      var file := listed[i];
      if file.path in declared {
        var j :| 0 <= j < i && listed[..i][j].path == file.path;
        assert listed[j].path == listed[i].path;
        return false;
      }
      if file.path !in tree.files
         || tree.files[file.path].size != file.size
         || Sha256(tree.files[file.path]) != file.sha256
      {
        assert !Listed(tree, listed[i]);
        return false;
      }
      PathsStep(listed, i);
      declared := declared + {file.path};
    }
    assert listed[..|listed|] == listed;
    var actual := tree.files.Keys - ControlFiles(installed);
    return declared == actual;
  }

  lemma FreshPath(listed: seq<BundleFile>, i: nat)
    requires i < |listed| && NoDuplicates(listed)
    ensures listed[i].path !in Paths(listed[..i]) && NoDuplicates(listed[..i])
  {
  }

  lemma PathsStep(listed: seq<BundleFile>, i: nat)
    requires i < |listed|
    requires listed[i].path !in Paths(listed[..i])
    requires NoDuplicates(listed[..i])
    ensures Paths(listed[..i+1]) == Paths(listed[..i]) + {listed[i].path}
    ensures NoDuplicates(listed[..i+1])
  {
    var a, b := listed[..i], listed[..i+1];
    forall p | p in Paths(a) + {listed[i].path} ensures p in Paths(b) {
      if p in Paths(a) {
        var k :| 0 <= k < |a| && a[k].path == p;
        assert b[k].path == p;
      } else {
        assert b[i].path == p;
      }
    }
    forall j, k | 0 <= j < k < |b| ensures b[j].path != b[k].path {
      if k < i {
        assert a[j].path != a[k].path;
      } else {
        assert a[j].path in Paths(a);
      }
    }
  }

  ghost predicate HasManifest(tree: Tree) {
    && BundleManifest in tree.files
    && tree.files[BundleManifest].content.Manifest?
    && tree.files[BundleManifest].content.product == PRODUCT
  }

  ghost function ManifestOf(tree: Tree): Content
    requires HasManifest(tree)
  {
    tree.files[BundleManifest].content
  }

  /** `verify_bundle`, on the parts that are facts about files. */
  ghost predicate VerifiedBundle(tree: Tree) {
    && HasManifest(tree)
    && ManifestOf(tree).schemaVersion == BUNDLE_SCHEMA_VERSION
    && ExactlyLists(tree, ManifestOf(tree).files, false)
    && RequiredLayout(tree.files.Keys)
  }

  /** `verify_installed_tree`. */
  ghost predicate Verified(tree: Tree) {
    && InstallMarker in tree.files
    && tree.files[InstallMarker].content.Marker?
    && tree.files[InstallMarker].content.product == PRODUCT
    && HasManifest(tree)
    && tree.files[InstallMarker].content.bundleSha256 == Sha256(tree.files[BundleManifest])
    && tree.files[InstallMarker].content.version == ManifestOf(tree).version
    && ExactlyLists(tree, ManifestOf(tree).files, true)
    && RequiredLayout(tree.files.Keys)
  }

  /** Verification as the program performs it. */
  method VerifyInstalledTree(tree: Tree) returns (ok: bool)
    ensures ok <==> Verified(tree)
    ensures ok ==> tree.files[InstallMarker].content.product == tree.files[BundleManifest].content.product == PRODUCT
  {
    if InstallMarker !in tree.files || BundleManifest !in tree.files { return false; }
    var marker, manifest := tree.files[InstallMarker].content, tree.files[BundleManifest].content;
    if !marker.Marker? || marker.product != PRODUCT { return false; }
    if marker.bundleSha256 != Sha256(tree.files[BundleManifest]) { return false; }
    if !manifest.Manifest? || manifest.product != PRODUCT || manifest.version != marker.version {
      return false;
    }
    ok := VerifyManifestFiles(tree, manifest.files, true);
    ok := ok && RequiredLayout(tree.files.Keys);
  }

  method VerifyBundle(tree: Tree) returns (ok: bool)
    ensures ok <==> VerifiedBundle(tree)
    ensures ok ==> tree.files[BundleManifest].content.product == PRODUCT
    ensures ok ==> tree.files[BundleManifest].content.schemaVersion == BUNDLE_SCHEMA_VERSION
  {
    if BundleManifest !in tree.files { return false; }
    var manifest := tree.files[BundleManifest].content;
    if !manifest.Manifest? || manifest.schemaVersion != BUNDLE_SCHEMA_VERSION || manifest.product != PRODUCT {
      return false;
    }
    ok := VerifyManifestFiles(tree, manifest.files, false);
    ok := ok && RequiredLayout(tree.files.Keys);
  }

  /** What verifies, installed or not, ships the five programs, the web page, the action schema,
      the store index and at least one service with its release. */
  lemma EntryPointsAreThere(tree: Tree)
    requires Verified(tree) || VerifiedBundle(tree)
    ensures forall name :: name in ["", "-daemon", "-tui", "-agent", "-desktop"] ==>
              Payload("bin/ojos-orchestrator" + name) in tree.files
    ensures Payload("manager/web/dist/index.html") in tree.files && Payload("store/index.json") in tree.files
    ensures Payload("platform/schemas/orchestrator/actions-v1.yaml") in tree.files
    ensures exists n :: '/' !in n && Payload("services/" + n + "/service.yaml") in tree.files
                        && Payload("services/" + n + "/release.yaml") in tree.files
  {
    hide ExactlyLists, Split, Join;
    var p :| p in tree.files && CompleteService(p, tree.files.Keys);
    ServiceName(p.name);
    assert "bin/ojos-orchestrator" + "" == "bin/ojos-orchestrator";
    assert "bin/ojos-orchestrator" + "-daemon" == "bin/ojos-orchestrator-daemon";
    assert "bin/ojos-orchestrator" + "-tui" == "bin/ojos-orchestrator-tui";
    assert "bin/ojos-orchestrator" + "-agent" == "bin/ojos-orchestrator-agent";
    assert "bin/ojos-orchestrator" + "-desktop" == "bin/ojos-orchestrator-desktop";
  }

  lemma ServiceName(name: string)
    requires |Split(name, '/')| == 3 && Split(name, '/')[0] == "services" && Split(name, '/')[2] == "service.yaml"
    ensures name == "services/" + Split(name, '/')[1] + "/service.yaml"
  {
    JoinSplit(name, '/');
    var parts := Split(name, '/');
    hide Split;
    assert parts[1..] == [parts[1], parts[2]] && parts[1..][1..] == [parts[2]];
    assert Join([parts[2]], '/') == parts[2];
    assert Join(parts[1..], '/') == parts[1] + ['/'] + parts[2];
    assert Join(parts, '/') == parts[0] + ['/'] + (parts[1] + ['/'] + parts[2]);
  }

  /** The manifest pins what verifies: two installations that verify under the same manifest hold
      the same files with the same content, and markers that differ in the time of installation
      only. */
  lemma ManifestPinsInstallation(a: Tree, b: Tree)
    requires Verified(a) && Verified(b) && a.files[BundleManifest] == b.files[BundleManifest]
    ensures a.files - {InstallMarker} == b.files - {InstallMarker}
    ensures var mark := a.files[InstallMarker].content;
            mark == b.files[InstallMarker].content.(installedAt := mark.installedAt)
  {
    SameListSameFiles(a, b, ManifestOf(a).files, true);
    assert a.files.Keys == (a.files.Keys - ControlFiles(true)) + ControlFiles(true);
    assert b.files.Keys == (b.files.Keys - ControlFiles(true)) + ControlFiles(true);
  }

  /** Two bundles that verify under the same manifest are equal. */
  lemma ManifestPinsBundle(a: Tree, b: Tree)
    requires VerifiedBundle(a) && VerifiedBundle(b) && a.files[BundleManifest] == b.files[BundleManifest]
    ensures a == b
  {
    SameListSameFiles(a, b, ManifestOf(a).files, false);
    assert a.files.Keys == (a.files.Keys - ControlFiles(false)) + ControlFiles(false);
    assert b.files.Keys == (b.files.Keys - ControlFiles(false)) + ControlFiles(false);
  }

  lemma SameListSameFiles(a: Tree, b: Tree, listed: seq<BundleFile>, installed: bool)
    requires ExactlyLists(a, listed, installed) && ExactlyLists(b, listed, installed)
    ensures a.files.Keys - ControlFiles(installed) == b.files.Keys - ControlFiles(installed)
    ensures forall p :: p in a.files && p !in ControlFiles(installed) ==> p in b.files && a.files[p] == b.files[p]
  {
    forall p | p in a.files.Keys - ControlFiles(installed) ensures p in b.files && a.files[p] == b.files[p] {
      assert p in Paths(listed);
      var i :| 0 <= i < |listed| && listed[i].path == p;
      assert Listed(a, listed[i]) && Listed(b, listed[i]);
    }
  }

  /** A half-deleted tree never passes: any verified tree stops verifying as soon as
      one of its files is gone. */
  lemma PartialTreeIsNotVerified(tree: Tree, part: Tree)
    requires Verified(tree)
    requires part.files.Keys < tree.files.Keys
    requires forall p :: p in part.files ==> part.files[p] == tree.files[p]
    ensures !Verified(part)
  {
    var gone :| gone in tree.files && gone !in part.files;
    if BundleManifest in part.files && InstallMarker in part.files {
      assert gone in Paths(ManifestOf(tree).files);
      var i :| 0 <= i < |ManifestOf(tree).files| && ManifestOf(tree).files[i].path == gone;
      assert !Listed(part, ManifestOf(tree).files[i]);
    }
  }

  /** The tree that staging a bundle builds: the listed files, the manifest and a marker. */
  ghost function Staged(bundle: Tree, installedAt: int): Tree
    requires HasManifest(bundle)
  {
    Tree(bundle.files[InstallMarker := MarkerFile(bundle, installedAt)])
  }

  function MarkerFile(bundle: Tree, installedAt: int): File
    requires BundleManifest in bundle.files && bundle.files[BundleManifest].content.Manifest?
  {
    File(1, Marker(PRODUCT, bundle.files[BundleManifest].content.version,
                   Sha256(bundle.files[BundleManifest]), installedAt))
  }

  /** Staging a verified bundle yields a tree that verifies, unless the bundle itself
      ships a file under the marker's name. */
  lemma StagedIsVerified(bundle: Tree, installedAt: int)
    requires VerifiedBundle(bundle)
    requires InstallMarker !in bundle.files
    ensures Verified(Staged(bundle, installedAt))
  {
    var staged := Staged(bundle, installedAt);
    var listed := ManifestOf(bundle).files;
    forall i | 0 <= i < |listed| ensures Listed(staged, listed[i]) {
      assert Listed(bundle, listed[i]);
    }
    assert staged.files.Keys - ControlFiles(true) == bundle.files.Keys - ControlFiles(false);
    var p :| p in bundle.files && CompleteService(p, bundle.files.Keys);
    assert p in staged.files && CompleteService(p, staged.files.Keys);
  }
}
