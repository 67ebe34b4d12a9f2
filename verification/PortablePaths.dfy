/** `_portable_relative_path` of deploy/ops/backup-manifest.py, on the UTF-8 bytes of a path. */
module PortablePaths {
  import opened Basics

  type Bytes = seq<int>

  const SLASH := 47
  const BACKSLASH := 92
  const DOT := 46
  const COLON := 58

  function Ascii(text: string): (b: Bytes)
    ensures |b| == |text| && forall i :: 0 <= i < |text| ==> b[i] == text[i] as int
  {
    seq(|text|, i requires 0 <= i < |text| => text[i] as int)
  }

  predicate IsControlName(path: Bytes) {
    path == Ascii("manifest.json") || path == Ascii("SHA256SUMS")
  }

  predicate IsLetter(b: int) {
    65 <= b <= 90 || 97 <= b <= 122
  }

  /** Relative, without backslashes, drive prefix or control characters. */
  predicate Clean(raw: Bytes) {
    && raw != []
    && raw[0] != SLASH && BACKSLASH !in raw
    && !(|raw| >= 2 && IsLetter(raw[0]) && raw[1] == COLON)
    && (forall i :: 0 <= i < |raw| ==> raw[i] >= 32 && raw[i] != 127)
  }

  /** The parts that `PurePosixPath` keeps: empty ones and dots go. */
  function Kept(parts: seq<Bytes>): (kept: seq<Bytes>)
    ensures forall p :: p in kept <==> p in parts && p != [] && p != [DOT]
  {
    if parts == [] then []
    else (if parts[0] != [] && parts[0] != [DOT] then [parts[0]] else []) + Kept(parts[1..])
  }

  function PurePath(raw: Bytes): Bytes {
    var kept := Kept(Split(raw, SLASH));
    if kept == [] then [DOT] else Join(kept, SLASH)
  }

  /** Checksum lists may spell a path with a leading "./". */
  function Stripped(raw: Bytes, checksumPath: bool): Bytes {
    if checksumPath && |raw| >= 2 && raw[0] == DOT && raw[1] == SLASH then raw[2..] else raw
  }

  /** The normalized path, or nothing for a path that is refused. */
  function Portable(raw: Bytes, checksumPath: bool): Option<Bytes> {
    var path := Stripped(raw, checksumPath);
    if !Clean(path) || path[|path|-1] == SLASH || [DOT, DOT] in Split(path, SLASH) then None
    else
      var normalized := PurePath(path);
      if normalized == path || IsControlName(normalized) then Some(normalized) else None
  }

  predicate CanonicalPart(part: Bytes) {
    part != [] && part != [DOT] && part != [DOT, DOT]
  }

  ghost predicate Canonical(path: Bytes) {
    forall i :: 0 <= i < |Split(path, SLASH)| ==> CanonicalPart(Split(path, SLASH)[i])
  }

  // ----- results --------------------------------------------------------------------------

  lemma DotIsOnePart()
    ensures Split([DOT], SLASH) == [[DOT]] && !Canonical([DOT]) && PurePath([DOT]) == [DOT]
  {
    SplitOne([DOT], SLASH);
    assert !CanonicalPart(Split([DOT], SLASH)[0]);
    NothingKept();
  }

  lemma NothingKept()
    ensures Kept([[DOT]]) == []
  {
    assert [[DOT]][1..] == [];
    assert Kept([]) == [];
  }

  /** The parts of a kept path are the parts that were kept. */
  lemma PurePathParts(raw: Bytes)
    requires Kept(Split(raw, SLASH)) != []
    ensures Split(PurePath(raw), SLASH) == Kept(Split(raw, SLASH))
  {
    var parts, kept := Split(raw, SLASH), Kept(Split(raw, SLASH));
    forall i | 0 <= i < |kept| ensures SLASH !in kept[i] {
      assert kept[i] in parts;
    }
    SplitJoin(kept, SLASH);
  }

  /** Every result has canonical parts only, if and only if it is not a lone dot. */
  lemma ResultIsCanonicalBut(raw: Bytes, checksumPath: bool)
    requires Portable(raw, checksumPath).Some?
    ensures Canonical(Portable(raw, checksumPath).value) <==> Portable(raw, checksumPath).value != [DOT]
  {
    var path, result := Stripped(raw, checksumPath), Portable(raw, checksumPath).value;
    var kept := Kept(Split(path, SLASH));
    DotIsOnePart();
    if kept != [] {
      PurePathParts(path);
      forall i | 0 <= i < |kept| ensures CanonicalPart(kept[i]) {
        assert kept[i] in kept;
      }
    }
  }

  /** A lone dot does pass. */
  lemma LoneDotIsPortable()
    ensures Portable([DOT], false) == Some([DOT])
  {
    DotIsOnePart();
    assert [DOT, DOT] !in [[DOT]];
  }

  // ----- spellings ------------------------------------------------------------------------

  lemma {:induction false} AllKept(parts: seq<Bytes>)
    requires forall i :: 0 <= i < |parts| ==> parts[i] != [] && parts[i] != [DOT]
    ensures Kept(parts) == parts
  {
    if parts != [] {
      AllKept(parts[1..]);
      assert parts == [parts[0]] + parts[1..];
    }
  }

  ghost predicate NothingToDrop(path: Bytes) {
    forall i :: 0 <= i < |Split(path, SLASH)| ==> Split(path, SLASH)[i] != [] && Split(path, SLASH)[i] != [DOT]
  }

  /** A path is spelled as `PurePosixPath` writes it exactly if it has no empty part and no dot
      among its parts, or is a lone dot. */
  lemma PurePathIsFixed(path: Bytes)
    ensures PurePath(path) == path <==> path == [DOT] || NothingToDrop(path)
  {
    var parts := Split(path, SLASH);
    DotIsOnePart();
    if NothingToDrop(path) {
      AllKept(parts);
      JoinSplit(path, SLASH);
      assert PurePath(path) == Join(parts, SLASH);
    }
    if PurePath(path) == path && path != [DOT] { FixedDropsNothing(path); }
  }

  lemma FixedDropsNothing(path: Bytes)
    requires PurePath(path) == path && path != [DOT]
    ensures NothingToDrop(path)
  {
    var parts := Split(path, SLASH);
    PurePathParts(path);
    forall i | 0 <= i < |parts| ensures parts[i] != [] && parts[i] != [DOT] {
      assert parts[i] in Kept(parts);
    }
  }

  /** An accepted path is its own result if and only if its parts are canonical or it is a lone
      dot; otherwise the result is one of the two control names. */
  lemma SpellingIsCanonicalBut(raw: Bytes, checksumPath: bool)
    requires Portable(raw, checksumPath).Some?
    ensures var path, result := Stripped(raw, checksumPath), Portable(raw, checksumPath).value;
            && (result == path <==> path == [DOT] || Canonical(path))
            && (result != path ==> IsControlName(result))
  {
    var path := Stripped(raw, checksumPath);
    var parts := Split(path, SLASH);
    PurePathIsFixed(path);
    forall i | 0 <= i < |parts| ensures CanonicalPart(parts[i]) <==> parts[i] != [] && parts[i] != [DOT] {
      assert parts[i] in parts;
    }
  }

  /** What is accepted, byte by byte: not absolute, no backslash, no control character, no drive
      prefix, no slash at the end, nothing that leads upwards, and spelled as it is normalized
      unless it stands for a control name. */
  lemma AcceptedExactly(raw: Bytes)
    ensures Portable(raw, false).Some? <==>
            && raw != [] && raw[0] != 47 && raw[|raw|-1] != 47
            && (forall i :: 0 <= i < |raw| ==> raw[i] != 92 && raw[i] != 127 && raw[i] >= 32)
            && (|raw| >= 2 && raw[1] == 58 ==> !(65 <= raw[0] <= 90) && !(97 <= raw[0] <= 122))
            && [46, 46] !in Split(raw, 47)
            && (raw == [46] || NothingToDrop(raw) || IsControlName(PurePath(raw)))
  {
    PurePathIsFixed(raw);
    hide PurePath, NothingToDrop, Split;
  }

  /** A checksum list may put one dot and slash in front. */
  lemma ChecksumSpelling(raw: Bytes)
    ensures Portable([DOT, SLASH] + raw, true) == Portable(raw, false)
    ensures !([DOT, SLASH] <= raw) ==> Portable(raw, true) == Portable(raw, false)
  {
    assert ([DOT, SLASH] + raw)[2..] == raw;
  }

  /** Letters, digits and dots only, and no colon after the first letter. */
  predicate PlainText(text: string) {
    |text| > 2 && text[1] != ':' && forall i :: 0 <= i < |text| ==> '.' <= text[i] <= 'z' && text[i] != '/' && text[i] != '\\'
  }

  lemma PlainTexts()
    ensures PlainText("manifest.json") && PlainText("SHA256SUMS")
  {
  }

  lemma ControlNamesAreClean(name: Bytes)
    requires IsControlName(name)
    ensures Clean(name) && SLASH !in name && |name| > 2
    ensures name[|name|-1] != SLASH && Split(name, SLASH) == [name]
  {
    hide Split;
    PlainTexts();
    assert forall i :: 0 <= i < |name| ==> name[i] != SLASH && name[i] != BACKSLASH && 32 <= name[i] < 127;
    SplitOne(name, SLASH);
  }

  lemma KeptAlone(name: Bytes)
    requires |name| > 2
    ensures Kept([name]) == [name] && Kept([[DOT], name]) == [name]
  {
    assert [name][1..] == [] && [[DOT], name][1..] == [name];
    assert Kept([]) == [];
  }

  /** The control names are accepted with a dot in front, which is not canonical. */
  lemma DottedControlNameIsPortable(name: Bytes)
    requires IsControlName(name)
    ensures Portable([DOT, SLASH] + name, false) == Some(name) && Portable(name, false) == Some(name)
    ensures !Canonical([DOT, SLASH] + name)
  {
    ControlNamesAreClean(name);
    DottedParts(name);
    hide Split, Join, Kept, IsControlName;
    KeptAlone(name);
    var raw := [DOT, SLASH] + name;
    assert PurePath(raw) == Join([name], SLASH) == name == PurePath(name) by { JoinOne(name); }
    assert [DOT, DOT] !in [[DOT], name] && [DOT, DOT] !in [name];
    DottedIsClean(name);
    assert !CanonicalPart(Split(raw, SLASH)[0]);
  }

  lemma JoinOne(name: Bytes)
    ensures Join([name], SLASH) == name
  {
  }

  lemma DottedParts(name: Bytes)
    requires Split(name, SLASH) == [name]
    ensures Split([DOT, SLASH] + name, SLASH) == [[DOT], name]
  {
    hide Split;
    assert [DOT, SLASH] + name == [DOT] + ([SLASH] + name) && ([SLASH] + name)[1..] == name;
    SplitFirst([DOT], [SLASH] + name, SLASH);
  }

  lemma DottedIsClean(name: Bytes)
    requires Clean(name) && SLASH !in name
    ensures Clean([DOT, SLASH] + name) && ([DOT, SLASH] + name)[|name| + 1] != SLASH
  {
    var raw := [DOT, SLASH] + name;
    assert forall i :: 2 <= i < |raw| ==> raw[i] == name[i - 2];
    assert name[|name|-1] in name;
  }

  /** Results are accepted as they are. */
  lemma ResultIsPortable(raw: Bytes, checksumPath: bool)
    requires Portable(raw, checksumPath).Some?
    ensures Portable(Portable(raw, checksumPath).value, false) == Portable(raw, checksumPath)
  {
    var result := Portable(raw, checksumPath).value;
    if IsControlName(result) { DottedControlNameIsPortable(result); }
  }
}
