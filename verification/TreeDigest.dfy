/** The tree digest of deploy/ops/backup-manifest.py: records are hashed as one byte stream, path NUL
    size NUL 32 digest bytes LF, in path order. */
module TreeDigest {
  import opened Basics
  import opened Ordering
  import opened PortablePaths

  const NUL := 0
  const LF := 10

  datatype Record = Record(path: Bytes, size: nat, digest: Bytes)

  datatype Digest = Sha256(of: Bytes)

  datatype Summary = Summary(regularFiles: nat, bytes: nat, sha256: Digest)

  // ----- the stream -----------------------------------------------------------------------

  /** Decimal digits in ASCII. */
  function Decimal(n: nat): (d: Bytes)
    ensures d != [] && forall i :: 0 <= i < |d| ==> 48 <= d[i] <= 57
  {
    if n < 10 then [48 + n] else Decimal(n / 10) + [48 + n % 10]
  }

  function Encode(r: Record): Bytes {
    r.path + [NUL] + Decimal(r.size) + [NUL] + r.digest + [LF]
  }

  function Stream(records: seq<Record>): Bytes {
    if records == [] then [] else Encode(records[0]) + Stream(records[1..])
  }

  /** What the callers of `_summary` guarantee of every record: its path is a result of
      `Portable`. */
  predicate ValidRecord(r: Record) {
    Portable(r.path, false) == Some(r.path) && |r.digest| == 32
  }

  predicate ValidRecords(records: seq<Record>) {
    forall i :: 0 <= i < |records| ==> ValidRecord(records[i])
  }

  /** The number that decimal digits stand for. */
  function Number(digits: Bytes): int {
    if digits == [] then 0 else 10 * Number(digits[..|digits|-1]) + digits[|digits|-1] - 48
  }

  /** The digits of a size stand for it, without a leading zero. */
  lemma {:induction false} DecimalReadsBack(n: nat)
    ensures Number(Decimal(n)) == n && (n > 0 ==> Decimal(n)[0] != 48)
  {
    var d := Decimal(n);
    if n < 10 {
      assert d[..|d|-1] == [];
    } else {
      DecimalReadsBack(n / 10);
      assert d[..|d|-1] == Decimal(n / 10);
    }
  }

  lemma DecimalIsInjective(a: nat, b: nat)
    requires Decimal(a) == Decimal(b)
    ensures a == b
  {
    DecimalReadsBack(a);
    DecimalReadsBack(b);
  }

  /** The text before the first NUL is determined. */
  lemma SplitAtNul(a: Bytes, x: Bytes, b: Bytes, y: Bytes)
    requires NUL !in a && NUL !in b && a + [NUL] + x == b + [NUL] + y
    ensures a == b && x == y
  {
    var s := a + [NUL] + x;
    assert s[|a|] == NUL && s[|b|] == NUL;
    assert forall i :: 0 <= i < |a| ==> s[i] == a[i];
    assert forall i :: 0 <= i < |b| ==> s[i] == b[i];
    assert a == s[..|a|] && b == s[..|b|];
    assert x == s[|a| + 1..] && y == s[|b| + 1..];
  }

  lemma EncodeParts(r: Record, x: Bytes)
    ensures Encode(r) + x == r.path + [NUL] + (Decimal(r.size) + [NUL] + (r.digest + [LF] + x))
  {
    hide Decimal;
    var d := Decimal(r.size);
    assert Encode(r) == r.path + [NUL] + d + [NUL] + r.digest + [LF];
  }

  lemma DigestAndRest(a: Bytes, x: Bytes, b: Bytes, y: Bytes)
    requires |a| == |b| && a + [LF] + x == b + [LF] + y
    ensures a == b && x == y
  {
    var s := a + [LF] + x;
    assert a == s[..|a|] && b == s[..|a|];
    assert x == s[|a| + 1..] && y == s[|a| + 1..];
  }

  /** One record and everything after it can be read back. */
  lemma EncodeIsPrefixFree(r: Record, x: Bytes, q: Record, y: Bytes)
    requires ValidRecord(r) && ValidRecord(q)
    requires Encode(r) + x == Encode(q) + y
    ensures r == q && x == y
  {
    assert NUL !in r.path && NUL !in q.path && NUL !in Decimal(r.size) && NUL !in Decimal(q.size);
    hide Decimal, Portable, Encode;
    EncodeParts(r, x);
    EncodeParts(q, y);
    var rx, qy := r.digest + [LF] + x, q.digest + [LF] + y;
    SplitAtNul(r.path, Decimal(r.size) + [NUL] + rx, q.path, Decimal(q.size) + [NUL] + qy);
    SplitAtNul(Decimal(r.size), rx, Decimal(q.size), qy);
    DecimalIsInjective(r.size, q.size);
    DigestAndRest(r.digest, x, q.digest, y);
  }

  lemma EncodeIsNotEmpty(r: Record)
    ensures |Encode(r)| > 0
  {
  }

  /** The stream is uniquely decodable: equal streams come from equal record lists. */
  lemma {:induction false} StreamIsInjective(a: seq<Record>, b: seq<Record>)
    requires ValidRecords(a) && ValidRecords(b) && Stream(a) == Stream(b)
    ensures a == b
    decreases |a|
  {
    hide ValidRecord, Encode;
    if a != [] { EncodeIsNotEmpty(a[0]); }
    if b != [] { EncodeIsNotEmpty(b[0]); }
    if a != [] && b != [] {
      EncodeIsPrefixFree(a[0], Stream(a[1..]), b[0], Stream(b[1..]));
      StreamIsInjective(a[1..], b[1..]);
      assert a == [a[0]] + a[1..] && b == [b[0]] + b[1..];
    }
  }

  // ----- summaries and inventories --------------------------------------------------------

  function TotalBytes(records: seq<Record>): nat {
    if records == [] then 0 else records[0].size + TotalBytes(records[1..])
  }

  function PathOf(r: Record): Bytes { r.path }

  predicate ByteLeq(a: int, b: int) { a <= b }

  /** Python's order of texts, which on UTF-8 is the order of the bytes. */
  predicate BytesLeq(a: Bytes, b: Bytes) {
    LexLeq(a, b, ByteLeq)
  }

  lemma BytesSpelledOut(a: Bytes, b: Bytes)
    ensures BytesLeq(a, b) <==> a <= b || exists k :: DiffersAt(a, b, k) && a[k] < b[k]
  {
    LexSpelledOut(a, b, ByteLeq);
    hide LexLeq;
  }

  lemma BytesAreOrdered()
    ensures IsOrder(BytesLeq)
  {
    LexIsOrder(ByteLeq, BytesLeq);
  }

  ghost function SummaryOf(records: seq<Record>): Summary {
    Summary(|records|, TotalBytes(records), Sha256(Stream(records)))
  }

  lemma {:induction false} Snoc(records: seq<Record>, r: Record)
    ensures Stream(records + [r]) == Stream(records) + Encode(r)
    ensures TotalBytes(records + [r]) == TotalBytes(records) + r.size
    decreases |records|
  {
    if records == [] {
      assert [r][1..] == [] && records + [r] == [r];
    } else {
      assert (records + [r])[1..] == records[1..] + [r];
      Snoc(records[1..], r);
    }
  }

  function InOrder(records: seq<Record>): seq<Record> {
    SortByKey(records, PathOf, BytesLeq)
  }

  lemma InOrderSorts(records: seq<Record>)
    ensures Sorts(InOrder(records), records, PathOf, BytesLeq)
    ensures Distinct(records, PathOf) <==> Distinct(InOrder(records), PathOf)
  {
    BytesAreOrdered();
    SortSorts(records, PathOf, BytesLeq);
    if Distinct(records, PathOf) { DistinctPermuted(records, InOrder(records), PathOf); }
    if Distinct(InOrder(records), PathOf) { DistinctPermuted(InOrder(records), records, PathOf); }
  }

  /** One pass over the ordered records feeds the hash. */
  method Digested(ordered: seq<Record>) returns (summary: Option<Summary>)
    ensures summary.Some? <==> Distinct(ordered, PathOf)
    ensures summary.Some? ==> summary.value == SummaryOf(ordered)
  {
    hide Decimal;
    var fed, total, seen := [], 0, {};
    for i := 0 to |ordered|
      invariant fed == Stream(ordered[..i]) && total == TotalBytes(ordered[..i])
      invariant seen == set k | 0 <= k < i :: ordered[k].path
      invariant forall a, b :: 0 <= a < b < i ==> PathOf(ordered[a]) != PathOf(ordered[b])
    {
      var r := ordered[i];
      if r.path in seen {
        var k :| 0 <= k < i && ordered[k].path == r.path;
        assert PathOf(ordered[k]) == PathOf(ordered[i]);
        return None;
      }
      Snoc(ordered[..i], r);
      assert ordered[..i+1] == ordered[..i] + [r];
      seen := seen + {r.path};
      total := total + r.size;
      fed := fed + (r.path + [NUL] + Decimal(r.size) + [NUL] + r.digest + [LF]);
    }
    assert ordered[..|ordered|] == ordered;
    return Some(Summary(|ordered|, total, Sha256(fed)));
  }

  /** `_summary`: sorts, then digests. */
  method Summarize(records: seq<Record>) returns (summary: Option<Summary>)
    ensures summary.Some? <==> Distinct(records, PathOf)
    ensures summary.Some? ==> summary.value == SummaryOf(InOrder(records))
  {
    hide SortByKey, Distinct;
    InOrderSorts(records);
    summary := Digested(InOrder(records));
  }

  /** The order in which records are found does not matter, and the summary tells them. */
  lemma SummaryIgnoresOrder(a: seq<Record>, b: seq<Record>)
    requires ValidRecords(a) && ValidRecords(b) && Distinct(a, PathOf)
    ensures multiset(a) == multiset(b) <==> SummaryOf(InOrder(a)) == SummaryOf(InOrder(b))
  {
    InOrderSorts(a);
    InOrderSorts(b);
    BytesAreOrdered();
    if multiset(a) == multiset(b) {
      KeyedListIsCanonical(a, b, InOrder(a), InOrder(b), PathOf, BytesLeq);
    }
    if SummaryOf(InOrder(a)) == SummaryOf(InOrder(b)) {
      ValidInOrder(a);
      ValidInOrder(b);
      StreamIsInjective(InOrder(a), InOrder(b));
    }
  }

  lemma ValidInOrder(records: seq<Record>)
    requires ValidRecords(records)
    ensures ValidRecords(InOrder(records))
  {
    hide Portable, SortByKey, SortedByKey, Distinct;
    InOrderSorts(records);
    SameMembers(records, InOrder(records));
    forall i | 0 <= i < |InOrder(records)| ensures ValidRecord(InOrder(records)[i]) {
      assert InOrder(records)[i] in records;
    }
  }

  // ----- inventories ----------------------------------------------------------------------

  /** Every path is accepted and every digest has its length. */
  predicate Readable(files: seq<Record>) {
    forall i :: 0 <= i < |files| ==> Portable(files[i].path, false).Some? && |files[i].digest| == 32
  }

  /** The records with their paths normalized. */
  function Normalized(files: seq<Record>): (records: seq<Record>)
    requires Readable(files)
    ensures |records| == |files|
    ensures forall i :: 0 <= i < |files| ==> records[i] == files[i].(path := Portable(files[i].path, false).value)
  {
    seq(|files|, i requires 0 <= i < |files| => files[i].(path := Portable(files[i].path, false).value))
  }

  /** When an inventory is accepted for a tree summary. */
  ghost predicate Validates(tree: Summary, files: seq<Record>) {
    && Readable(files) && Distinct(Normalized(files), PathOf)
    && SortedByKey(Normalized(files), PathOf, BytesLeq)
    && SummaryOf(Normalized(files)) == tree
  }

  lemma SortedIsInOrder(records: seq<Record>)
    requires Distinct(records, PathOf)
    ensures InOrder(records) == records <==> SortedByKey(records, PathOf, BytesLeq)
  {
    InOrderSorts(records);
    BytesAreOrdered();
    if SortedByKey(records, PathOf, BytesLeq) {
      KeyedListIsCanonical(records, records, InOrder(records), records, PathOf, BytesLeq);
    }
  }

  /** `_validate_inventory`. */
  method ValidateInventory(tree: Summary, files: seq<Record>) returns (r: Option<seq<Record>>)
    ensures r.Some? <==> Validates(tree, files)
    ensures r.Some? ==> r.value == Normalized(files)
  {
    hide Portable;
    var records, seen := [], {};
    for i := 0 to |files|
      invariant Readable(files[..i]) && records == Normalized(files[..i])
      invariant Distinct(records, PathOf)
      invariant seen == set k | 0 <= k < i :: records[k].path
    {
      var path := Portable(files[i].path, false);
      if path.None? { return None; }
      if path.value in seen {
        assert Readable(files) ==> Normalized(files)[i].path == path.value;
        return None;
      }
      if |files[i].digest| != 32 { return None; }
      seen := seen + {path.value};
      records := records + [files[i].(path := path.value)];
    }
    assert files[..|files|] == files;
    SortedIsInOrder(records);
    if InOrder(records) != records { return None; }
    var summary := Summarize(records);
    return if summary == Some(tree) then Some(records) else None;
  }

  lemma NormalizedIsValid(files: seq<Record>)
    requires Readable(files)
    ensures ValidRecords(Normalized(files))
  {
    forall i | 0 <= i < |files| ensures ValidRecord(Normalized(files)[i]) {
      ResultIsPortable(files[i].path, false);
    }
  }

  /** A tree summary pins the inventory: all inventories accepted for it have the same normalized
      records, and differ at most in how they spell the control names. */
  lemma InventoryIsUnique(tree: Summary, a: seq<Record>, b: seq<Record>)
    requires Validates(tree, a) && Validates(tree, b)
    ensures Normalized(a) == Normalized(b)
    ensures forall i :: 0 <= i < |a| && a[i] != b[i] ==> IsControlName(Normalized(a)[i].path)
  {
    NormalizedIsValid(a);
    NormalizedIsValid(b);
    StreamIsInjective(Normalized(a), Normalized(b));
    forall i | 0 <= i < |a| && a[i] != b[i] ensures IsControlName(Normalized(a)[i].path) {
      SpellingIsCanonicalBut(a[i].path, false);
      SpellingIsCanonicalBut(b[i].path, false);
      assert Normalized(a)[i] == Normalized(b)[i];
    }
  }

  /** They can differ there: one summary, two accepted inventories. */
  lemma TwoSpellings(name: Bytes, size: nat, digest: Bytes)
    requires IsControlName(name) && |digest| == 32
    ensures var a, b := [Record(name, size, digest)], [Record([DOT, SLASH] + name, size, digest)];
            a != b && Validates(SummaryOf(a), a) && Validates(SummaryOf(a), b)
  {
    hide Portable, IsControlName;
    DottedControlNameIsPortable(name);
    var a, b := [Record(name, size, digest)], [Record([DOT, SLASH] + name, size, digest)];
    assert Normalized(a) == a && Normalized(b) == a;
    assert |a[0].path| != |b[0].path|;
  }
}
