/** Local `$ref` resolution in tools/ojos-service/src/lib.rs. `normalize_schema` recurses through
    references, so on a cyclic document it never returns; here that is running out of fuel,
    whatever the fuel. */
module SchemaRefs {
  import opened Basics
  import opened SchemaCompat

  /** What each location of the document holds, by the text after `#`. */
  type Document = map<string, Value>

  datatype RefError = BadReference | Diverged

  type Normalized = Result<Value, RefError>

  predicate IsRef(v: Value) {
    v.Object? && "$ref" in v.fields
  }

  /** `resolve_internal_ref`: one step, and only to pointers of this document. */
  function Resolve(doc: Document, v: Value): Normalized {
    if !IsRef(v) then Ok(v)
    else
      var reference := v.fields["$ref"];
      if !reference.Text? || |reference.text| == 0 || reference.text[0] != '#' then Err(BadReference)
      else if reference.text[1..] !in doc then Err(BadReference)
      else Ok(doc[reference.text[1..]])
  }

  /** A reference that is no text, names another document, or leads nowhere is refused. */
  lemma BadReferenceIsRefused(doc: Document, v: Value, fuel: nat)
    requires IsRef(v) && fuel > 0
    requires var r := v.fields["$ref"];
             !r.Text? || r.text == "" || r.text[0] != '#' || forall p :: p in doc ==> "#" + p != r.text
    ensures Normalize(doc, v, fuel) == Err(BadReference)
  {
    var r := v.fields["$ref"];
    if r.Text? && r.text != "" && r.text[0] == '#' { assert "#" + r.text[1..] == r.text; }
  }

  /** An object from its parts, or an error of one of them. */
  function CollectFields(parts: map<string, Normalized>): (r: Normalized)
    ensures r.Ok? <==> forall k :: k in parts ==> parts[k].Ok?
    ensures r.Ok? ==> r.value.Object? && r.value.fields.Keys == parts.Keys
    ensures r.Ok? ==> forall k :: k in parts ==> r.value.fields[k] == parts[k].value
    ensures r.Err? ==> exists k :: k in parts && parts[k] == r
  {
    if forall k :: k in parts ==> parts[k].Ok? then Ok(Object(map k | k in parts :: parts[k].value))
    else if exists k :: k in parts && parts[k] == Err(Diverged) then Err(Diverged)
    else
      assert exists k :: k in parts && parts[k].Err? && parts[k].error.BadReference?;
      Err(BadReference)
  }

  function CollectItems(parts: seq<Normalized>): (r: Normalized)
    ensures r.Ok? <==> forall i :: 0 <= i < |parts| ==> parts[i].Ok?
    ensures r.Ok? ==> r.value.Array? && |r.value.items| == |parts|
    ensures r.Ok? ==> forall i :: 0 <= i < |parts| ==> r.value.items[i] == parts[i].value
    ensures r.Err? ==> exists i :: 0 <= i < |parts| && parts[i] == r
  {
    if forall i :: 0 <= i < |parts| ==> parts[i].Ok?
    then Ok(Array(seq(|parts|, i requires 0 <= i < |parts| && parts[i].Ok? => parts[i].value)))
    else if exists i :: 0 <= i < |parts| && parts[i] == Err(Diverged) then Err(Diverged)
    else
      assert exists i :: 0 <= i < |parts| && parts[i].Err? && parts[i].error.BadReference?;
      Err(BadReference)
  }

  /** `normalize_schema`. */
  function Normalize(doc: Document, v: Value, fuel: nat): Normalized
    decreases fuel, 1
  {
    if fuel == 0 then Err(Diverged)
    else
      match Resolve(doc, v)
      case Err(e) => Err(e)
      case Ok(Object(fields)) => CollectFields(FieldParts(doc, fields, fuel - 1))
      case Ok(Array(items)) => CollectItems(ItemParts(doc, items, fuel - 1))
      case Ok(leaf) => Ok(leaf)
  }

  function FieldParts(doc: Document, fields: map<string, Value>, fuel: nat): (parts: map<string, Normalized>)
    decreases fuel, 2
  {
    map k | k in fields && k != "$ref" :: Normalize(doc, fields[k], fuel)
  }

  function ItemParts(doc: Document, items: seq<Value>, fuel: nat): (parts: seq<Normalized>)
    decreases fuel, 2
  {
    seq(|items|, i requires 0 <= i < |items| => Normalize(doc, items[i], fuel))
  }

  ghost predicate NoRefs(v: Value)
    decreases v
  {
    match v
    case Object(fields) => "$ref" !in fields && forall k :: k in fields ==> NoRefs(fields[k])
    case Array(items) => forall i :: 0 <= i < |items| ==> NoRefs(items[i])
    case _ => true
  }

  /** Whenever normalizing returns, no `$ref` key is left at any depth. */
  lemma {:induction false} NormalizedHasNoRefs(doc: Document, v: Value, fuel: nat)
    requires Normalize(doc, v, fuel).Ok?
    ensures NoRefs(Normalize(doc, v, fuel).value)
    decreases fuel
  {
    match Resolve(doc, v)
    case Ok(Object(fields)) =>
      var parts := FieldParts(doc, fields, fuel - 1);
      forall k | k in parts ensures NoRefs(parts[k].value) {
        NormalizedHasNoRefs(doc, fields[k], fuel - 1);
      }
    case Ok(Array(items)) =>
      var parts := ItemParts(doc, items, fuel - 1);
      forall i | 0 <= i < |parts| ensures NoRefs(parts[i].value) {
        assert parts[i] == Normalize(doc, items[i], fuel - 1);
        NormalizedHasNoRefs(doc, items[i], fuel - 1);
      }
    case _ =>
  }

  /** More fuel never changes an answer, so the answer is a function of the schema. */
  lemma {:induction false} FuelIsIrrelevant(doc: Document, v: Value, fuel: nat, more: nat)
    requires fuel <= more && Normalize(doc, v, fuel) != Err(Diverged)
    ensures Normalize(doc, v, more) == Normalize(doc, v, fuel)
    decreases fuel
  {
    match Resolve(doc, v)
    case Ok(Object(fields)) =>
      var parts, others := FieldParts(doc, fields, fuel - 1), FieldParts(doc, fields, more - 1);
      forall k | k in parts ensures others[k] == parts[k] {
        FuelIsIrrelevant(doc, fields[k], fuel - 1, more - 1);
      }
      assert others == parts;
    case Ok(Array(items)) =>
      var parts, others := ItemParts(doc, items, fuel - 1), ItemParts(doc, items, more - 1);
      forall i | 0 <= i < |parts| ensures others[i] == parts[i] {
        assert parts[i] == Normalize(doc, items[i], fuel - 1);
        FuelIsIrrelevant(doc, items[i], fuel - 1, more - 1);
      }
      assert others == parts;
    case _ =>
  }

  // ----- termination ----------------------------------------------------------------------

  /** Every reference inside the value that resolves leads to a location ranked below `bound`. */
  ghost predicate RefsBelow(doc: Document, rank: map<string, nat>, v: Value, bound: nat)
    decreases v
  {
    && (IsRef(v) && v.fields["$ref"].Text? && v.fields["$ref"].text != "" && v.fields["$ref"].text[0] == '#'
        && v.fields["$ref"].text[1..] in doc ==>
          v.fields["$ref"].text[1..] in rank && rank[v.fields["$ref"].text[1..]] < bound)
    && match v
       case Object(fields) => forall k :: k in fields ==> RefsBelow(doc, rank, fields[k], bound)
       case Array(items) => forall i :: 0 <= i < |items| ==> RefsBelow(doc, rank, items[i], bound)
       case _ => true
  }

  /** The reference graph has no cycle: references inside a target point further down. */
  ghost predicate Acyclic(doc: Document, rank: map<string, nat>) {
    forall p :: p in doc ==> p in rank && RefsBelow(doc, rank, doc[p], rank[p])
  }

  /** Normalizing answers for every amount of fuel from `fuel` on. */
  ghost predicate Answers(doc: Document, v: Value, fuel: nat) {
    forall n: nat :: n >= fuel ==> Normalize(doc, v, n) != Err(Diverged)
  }

  /** On an acyclic document normalizing terminates: by the rank of the references it may
      still meet, and below that by the size of the value. */
  lemma {:induction false} Terminates(doc: Document, rank: map<string, nat>, v: Value, bound: nat) returns (fuel: nat)
    requires Acyclic(doc, rank) && RefsBelow(doc, rank, v, bound)
    ensures Answers(doc, v, fuel)
    decreases bound, v, 1
  {
    if Resolve(doc, v).Err? {
      return 1;
    } else if IsRef(v) {
      var p := v.fields["$ref"].text[1..];
      fuel := TerminatesBelow(doc, rank, doc[p], rank[p]);
      forall n: nat | n >= fuel ensures Normalize(doc, v, n) != Err(Diverged) {
        assert Normalize(doc, v, n) == NormalizeResolved(doc, doc[p], n);
      }
    } else {
      fuel := TerminatesBelow(doc, rank, v, bound);
      forall n: nat | n >= fuel ensures Normalize(doc, v, n) != Err(Diverged) {
        assert Normalize(doc, v, n) == NormalizeResolved(doc, v, n);
      }
    }
  }

  /** `Normalize` after its first resolution step. */
  ghost function NormalizeResolved(doc: Document, v: Value, fuel: nat): Normalized {
    if fuel == 0 then Err(Diverged)
    else match v
      case Object(fields) => CollectFields(FieldParts(doc, fields, fuel - 1))
      case Array(items) => CollectItems(ItemParts(doc, items, fuel - 1))
      case leaf => Ok(leaf)
  }

  lemma {:induction false} TerminatesBelow(doc: Document, rank: map<string, nat>, v: Value, bound: nat) returns (fuel: nat)
    requires Acyclic(doc, rank) && RefsBelow(doc, rank, v, bound)
    ensures forall n: nat :: n >= fuel ==> NormalizeResolved(doc, v, n) != Err(Diverged)
    decreases bound, v, 0
  {
    match v
    case Object(fields) =>
      var todo, most := fields.Keys, 0;
      while todo != {}
        invariant todo <= fields.Keys
        invariant forall k :: k in fields.Keys - todo ==> Answers(doc, fields[k], most)
      {
        var k :| k in todo;
        var f := Terminates(doc, rank, fields[k], bound);
        most := if f > most then f else most;
        todo := todo - {k};
      }
      fuel := most + 1;
      forall n: nat | n >= fuel ensures NormalizeResolved(doc, v, n) != Err(Diverged) {
        var parts := FieldParts(doc, fields, n - 1);
        forall k | k in parts ensures parts[k] != Err(Diverged) {
          assert Answers(doc, fields[k], most) && parts[k] == Normalize(doc, fields[k], n - 1);
        }
      }
    case Array(items) =>
      var most := 0;
      for i := 0 to |items|
        invariant forall j :: 0 <= j < i ==> Answers(doc, items[j], most)
      {
        var f := Terminates(doc, rank, items[i], bound);
        most := if f > most then f else most;
      }
      fuel := most + 1;
      forall n: nat | n >= fuel ensures NormalizeResolved(doc, v, n) != Err(Diverged) {
        var parts := ItemParts(doc, items, n - 1);
        forall i | 0 <= i < |parts| ensures parts[i] != Err(Diverged) {
          assert Answers(doc, items[i], most) && parts[i] == Normalize(doc, items[i], n - 1);
        }
      }
    case _ =>
      fuel := 1;
  }

  // ----- cycles ---------------------------------------------------------------------------

  /** Normalizing `v` normalizes `w`: below `v`, or below the target that `v` refers to. */
  ghost predicate Visits(doc: Document, v: Value, w: Value) {
    match Resolve(doc, v)
    case Ok(Object(fields)) => exists k :: k in fields && k != "$ref" && fields[k] == w
    case Ok(Array(items)) => w in items
    case _ => false
  }

  lemma VisitedIsNormalized(doc: Document, v: Value, w: Value, fuel: nat)
    requires Visits(doc, v, w) && Normalize(doc, v, fuel).Ok?
    ensures fuel > 0 && Normalize(doc, w, fuel - 1).Ok?
  {
    match Resolve(doc, v)
    case Ok(Object(fields)) =>
      var k :| k in fields && k != "$ref" && fields[k] == w;
      assert FieldParts(doc, fields, fuel - 1)[k].Ok?;
    case Ok(Array(items)) =>
      var i :| 0 <= i < |items| && items[i] == w;
      assert ItemParts(doc, items, fuel - 1)[i].Ok?;
  }

  /** A round trip through the document: each value leads to the next, the last to the first. */
  ghost predicate Cycle(doc: Document, round: seq<Value>) {
    && round != []
    && (forall i :: 0 <= i < |round| - 1 ==> Visits(doc, round[i], round[i+1]))
    && Visits(doc, round[|round|-1], round[0])
  }

  /** Nothing on a cycle is ever normalized, however long the way back is. */
  lemma {:induction false} CycleDiverges(doc: Document, round: seq<Value>, i: nat, fuel: nat)
    requires Cycle(doc, round) && i < |round|
    ensures !Normalize(doc, round[i], fuel).Ok?
    decreases fuel
  {
    if Normalize(doc, round[i], fuel).Ok? {
      var next := if i + 1 < |round| then i + 1 else 0;
      VisitedIsNormalized(doc, round[i], round[next], fuel);
      CycleDiverges(doc, round, next, fuel - 1);
      assert false;
    }
  }

  /** Nor is anything that leads to one. */
  lemma {:induction false} LeadingToCycleDiverges(doc: Document, path: seq<Value>, round: seq<Value>, fuel: nat)
    requires path != [] && Cycle(doc, round) && path[|path|-1] in round
    requires forall i :: 0 <= i < |path| - 1 ==> Visits(doc, path[i], path[i+1])
    ensures !Normalize(doc, path[0], fuel).Ok?
    decreases |path|
  {
    if |path| == 1 {
      var i :| 0 <= i < |round| && round[i] == path[0];
      CycleDiverges(doc, round, i, fuel);
    } else if Normalize(doc, path[0], fuel).Ok? {
      VisitedIsNormalized(doc, path[0], path[1], fuel);
      LeadingToCycleDiverges(doc, path[1..], round, fuel - 1);
      assert false;
    }
  }

  /** The ordinary recursive schema: a property at any key refers back to the schema. */
  lemma RecursiveSchemaDiverges(doc: Document, p: string, key: string, fuel: nat)
    requires p in doc && doc[p].Object? && !IsRef(doc[p])
    requires key in doc[p].fields && doc[p].fields[key] == Reference(p)
    ensures !Normalize(doc, doc[p], fuel).Ok? && !Normalize(doc, Reference(p), fuel).Ok?
  {
    assert ("#" + p)[1..] == p;
    assert Resolve(doc, Reference(p)) == Ok(doc[p]);
    assert Visits(doc, Reference(p), Reference(p)) && Visits(doc, doc[p], Reference(p));
    CycleDiverges(doc, [Reference(p)], 0, fuel);
    LeadingToCycleDiverges(doc, [doc[p], Reference(p)], [Reference(p)], fuel);
  }

  function Reference(p: string): Value {
    Object(map["$ref" := Text("#" + p)])
  }

  // ----- normalizing and ranks ------------------------------------------------------------

  /** Every reference inside the value resolves, has no key beside it, and leads to a value
      that is not a reference itself. */
  ghost predicate Tidy(doc: Document, v: Value)
    decreases v
  {
    && (IsRef(v) ==> v.fields.Keys == {"$ref"} && Resolve(doc, v).Ok? && !IsRef(Resolve(doc, v).value))
    && match v
       case Object(fields) => forall k :: k in fields ==> Tidy(doc, fields[k])
       case Array(items) => forall i :: 0 <= i < |items| ==> Tidy(doc, items[i])
       case _ => true
  }

  ghost predicate TidyDocument(doc: Document) {
    forall p :: p in doc ==> Tidy(doc, doc[p])
  }

  lemma {:induction false} TidyNeverFails(doc: Document, v: Value, fuel: nat)
    requires TidyDocument(doc) && Tidy(doc, v)
    ensures Normalize(doc, v, fuel) != Err(BadReference)
    decreases fuel
  {
    if fuel > 0 {
      var target := Resolve(doc, v).value;
      assert Tidy(doc, target);
      match target
      case Object(fields) =>
        var parts := FieldParts(doc, fields, fuel - 1);
        forall k | k in parts ensures parts[k] != Err(BadReference) {
          TidyNeverFails(doc, fields[k], fuel - 1);
        }
      case Array(items) =>
        var parts := ItemParts(doc, items, fuel - 1);
        forall i | 0 <= i < |parts| ensures parts[i] != Err(BadReference) {
          assert parts[i] == Normalize(doc, items[i], fuel - 1);
          TidyNeverFails(doc, items[i], fuel - 1);
        }
      case _ =>
    }
  }

  ghost predicate Normalizes(doc: Document, v: Value) {
    exists fuel: nat :: Normalize(doc, v, fuel).Ok?
  }

  /** The least fuel that is enough. */
  lemma {:induction false} LeastFuel(doc: Document, v: Value, fuel: nat) returns (least: nat)
    requires Normalize(doc, v, fuel).Ok?
    ensures least <= fuel && Normalize(doc, v, least).Ok?
    ensures forall n: nat :: Normalize(doc, v, n).Ok? ==> least <= n
    decreases fuel
  {
    if n: nat :| n < fuel && Normalize(doc, v, n).Ok? {
      least := LeastFuel(doc, v, n);
    } else {
      least := fuel;
    }
  }

  /** `rank` orders locations by the fuel they need, a reference above its target. */
  ghost predicate RankedByFuel(doc: Document, rank: map<string, nat>) {
    && rank.Keys == doc.Keys
    && forall p :: p in doc ==>
         && Normalize(doc, doc[p], rank[p] / 2).Ok?
         && (forall n: nat :: Normalize(doc, doc[p], n).Ok? ==> rank[p] / 2 <= n)
         && (rank[p] % 2 == 1 <==> IsRef(doc[p]))
  }

  lemma FuelRank(doc: Document) returns (rank: map<string, nat>)
    requires forall p :: p in doc ==> Normalizes(doc, doc[p])
    ensures RankedByFuel(doc, rank)
  {
    rank := map[];
    var todo := doc.Keys;
    while todo != {}
      invariant todo <= doc.Keys && rank.Keys == doc.Keys - todo
      invariant forall p :: p in rank ==>
                  && Normalize(doc, doc[p], rank[p] / 2).Ok?
                  && (forall n: nat :: Normalize(doc, doc[p], n).Ok? ==> rank[p] / 2 <= n)
                  && (rank[p] % 2 == 1 <==> IsRef(doc[p]))
    {
      var p :| p in todo;
      var fuel: nat :| Normalize(doc, doc[p], fuel).Ok?;
      var least := LeastFuel(doc, doc[p], fuel);
      var r := 2 * least + if IsRef(doc[p]) then 1 else 0;
      assert r / 2 == least;
      rank := rank[p := r];
      todo := todo - {p};
    }
  }

  /** What normalizes with some fuel refers only to what needs no more. */
  lemma {:induction false} RefsNeedNoMore(doc: Document, rank: map<string, nat>, v: Value, fuel: nat)
    requires TidyDocument(doc) && Tidy(doc, v) && RankedByFuel(doc, rank)
    requires Normalize(doc, v, fuel).Ok?
    ensures RefsBelow(doc, rank, v, if IsRef(v) then 2 * fuel + 1 else 2 * fuel)
    decreases v
  {
    match v
    case Object(fields) =>
      if IsRef(v) {
        var q := fields["$ref"].text[1..];
        assert Normalize(doc, v, fuel) == Normalize(doc, doc[q], fuel);
        assert rank[q] / 2 <= fuel && rank[q] % 2 == 0;
      } else {
        forall k | k in fields ensures RefsBelow(doc, rank, fields[k], 2 * fuel) {
          assert FieldParts(doc, fields, fuel - 1)[k].Ok?;
          RefsNeedNoMore(doc, rank, fields[k], fuel - 1);
          RefsBelowMore(doc, rank, fields[k], if IsRef(fields[k]) then 2 * (fuel - 1) + 1 else 2 * (fuel - 1), 2 * fuel);
        }
      }
    case Array(items) =>
      forall i | 0 <= i < |items| ensures RefsBelow(doc, rank, items[i], 2 * fuel) {
        assert ItemParts(doc, items, fuel - 1)[i].Ok?;
        RefsNeedNoMore(doc, rank, items[i], fuel - 1);
        RefsBelowMore(doc, rank, items[i], if IsRef(items[i]) then 2 * (fuel - 1) + 1 else 2 * (fuel - 1), 2 * fuel);
      }
    case _ =>
  }

  lemma {:induction false} RefsBelowMore(doc: Document, rank: map<string, nat>, v: Value, bound: nat, more: nat)
    requires RefsBelow(doc, rank, v, bound) && bound <= more
    ensures RefsBelow(doc, rank, v, more)
    decreases v
  {
    match v
    case Object(fields) =>
      forall k | k in fields ensures RefsBelow(doc, rank, fields[k], more) {
        RefsBelowMore(doc, rank, fields[k], bound, more);
      }
    case Array(items) =>
      forall i | 0 <= i < |items| ensures RefsBelow(doc, rank, items[i], more) {
        RefsBelowMore(doc, rank, items[i], bound, more);
      }
    case _ =>
  }

  /** On tidy documents acyclic references are necessary too: every location can be normalized
      if and only if the reference graph has a rank. */
  lemma AcyclicIffNormalizes(doc: Document)
    requires TidyDocument(doc)
    ensures (exists rank :: Acyclic(doc, rank)) <==> forall p :: p in doc ==> Normalizes(doc, doc[p])
  {
    if rank :| Acyclic(doc, rank) {
      forall p | p in doc ensures Normalizes(doc, doc[p]) {
        var fuel := Terminates(doc, rank, doc[p], rank[p]);
        TidyNeverFails(doc, doc[p], fuel);
        assert Normalize(doc, doc[p], fuel).Ok?;
      }
    }
    if forall p :: p in doc ==> Normalizes(doc, doc[p]) {
      var rank := FuelRank(doc);
      forall p | p in doc ensures RefsBelow(doc, rank, doc[p], rank[p]) {
        RefsNeedNoMore(doc, rank, doc[p], rank[p] / 2);
      }
      assert Acyclic(doc, rank);
    }
  }

  // ----- single values --------------------------------------------------------------------

  /** A walk along what normalizing visits. */
  ghost predicate Walk(doc: Document, path: seq<Value>) {
    path != [] && forall i :: 0 <= i < |path| - 1 ==> Visits(doc, path[i], path[i+1])
  }

  /** The walk starts at the value and ends on a cycle. */
  ghost predicate LeadsToCycle(doc: Document, v: Value, path: seq<Value>, round: seq<Value>) {
    Walk(doc, path) && path[0] == v && path[|path|-1] in round && Cycle(doc, round)
  }

  /** If all that is visited from an object normalizes, so does the object. */
  lemma FieldsNormalize(doc: Document, fields: map<string, Value>) returns (fuel: nat)
    requires forall k :: k in fields && k != "$ref" ==> Normalizes(doc, fields[k])
    ensures CollectFields(FieldParts(doc, fields, fuel)).Ok?
  {
    var todo := fields.Keys - {"$ref"};
    var most: nat := 0;
    while todo != {}
      invariant todo <= fields.Keys - {"$ref"}
      invariant forall k :: k in fields.Keys - {"$ref"} - todo ==> Normalize(doc, fields[k], most).Ok?
    {
      var k :| k in todo;
      var f: nat :| Normalize(doc, fields[k], f).Ok?;
      var more := if f > most then f else most;
      forall j | j in fields.Keys - {"$ref"} - todo ensures Normalize(doc, fields[j], more).Ok? {
        FuelIsIrrelevant(doc, fields[j], most, more);
      }
      FuelIsIrrelevant(doc, fields[k], f, more);
      most, todo := more, todo - {k};
    }
    fuel := most;
    var parts := FieldParts(doc, fields, fuel);
    assert forall k :: k in parts ==> parts[k] == Normalize(doc, fields[k], fuel);
  }

  lemma ItemsNormalize(doc: Document, items: seq<Value>) returns (fuel: nat)
    requires forall i :: 0 <= i < |items| ==> Normalizes(doc, items[i])
    ensures CollectItems(ItemParts(doc, items, fuel)).Ok?
  {
    var most: nat := 0;
    for i := 0 to |items|
      invariant forall j :: 0 <= j < i ==> Normalize(doc, items[j], most).Ok?
    {
      var f: nat :| Normalize(doc, items[i], f).Ok?;
      var more := if f > most then f else most;
      forall j | 0 <= j < i ensures Normalize(doc, items[j], more).Ok? {
        FuelIsIrrelevant(doc, items[j], most, more);
      }
      FuelIsIrrelevant(doc, items[i], f, more);
      most := more;
    }
    fuel := most;
    var parts := ItemParts(doc, items, fuel);
    assert forall i :: 0 <= i < |parts| ==> parts[i] == Normalize(doc, items[i], fuel);
  }

  /** What cannot be normalized visits something that cannot be normalized; without a reference,
      something inside it. */
  lemma Culprit(doc: Document, v: Value) returns (w: Value)
    requires TidyDocument(doc) && Tidy(doc, v) && !Normalizes(doc, v)
    ensures Visits(doc, v, w) && Tidy(doc, w) && !Normalizes(doc, w)
    ensures !IsRef(v) ==> w < v
  {
    var target := Resolve(doc, v).value;
    assert Tidy(doc, target) && !IsRef(target);
    match target
    case Object(fields) =>
      if forall k :: k in fields && k != "$ref" ==> Normalizes(doc, fields[k]) {
        var fuel := FieldsNormalize(doc, fields);
        assert Normalize(doc, v, fuel + 1).Ok?;
        assert false;
      }
      var k :| k in fields && k != "$ref" && !Normalizes(doc, fields[k]);
      w := fields[k];
    case Array(items) =>
      if forall i :: 0 <= i < |items| ==> Normalizes(doc, items[i]) {
        var fuel := ItemsNormalize(doc, items);
        assert Normalize(doc, v, fuel + 1).Ok?;
        assert false;
      }
      var i :| 0 <= i < |items| && !Normalizes(doc, items[i]);
      w := items[i];
    case _ =>
      LeafNormalizes(doc, v);
      assert false;
  }

  lemma LeafNormalizes(doc: Document, v: Value)
    requires Resolve(doc, v).Ok? && !Resolve(doc, v).value.Object? && !Resolve(doc, v).value.Array?
    ensures Normalizes(doc, v)
  {
    assert Normalize(doc, v, 1).Ok?;
  }

  ghost predicate RefersTo(v: Value, p: string) {
    IsRef(v) && v.fields["$ref"].Text? && v.fields["$ref"].text != "" && v.fields["$ref"].text[1..] == p
  }

  lemma TidyRefersTo(doc: Document, v: Value) returns (p: string)
    requires Tidy(doc, v) && IsRef(v)
    ensures p in doc && RefersTo(v, p)
  {
    p := v.fields["$ref"].text[1..];
  }

  /** Two references to one location visit the same. */
  lemma SameTarget(doc: Document, u: Value, v: Value, p: string, w: Value)
    requires Tidy(doc, u) && Tidy(doc, v) && RefersTo(u, p) && RefersTo(v, p)
    ensures Visits(doc, u, w) <==> Visits(doc, v, w)
  {
    assert Resolve(doc, u) == Resolve(doc, v);
  }

  /** Coming to a location for the second time closes a cycle. */
  lemma CloseCycle(doc: Document, path: seq<Value>, p: string, i: nat) returns (round: seq<Value>)
    requires Walk(doc, path) && i < |path| - 1 && forall j :: 0 <= j < |path| ==> Tidy(doc, path[j])
    requires RefersTo(path[i], p) && RefersTo(path[|path|-1], p)
    ensures Cycle(doc, round) && path[|path|-1] in round
  {
    round := path[i+1..];
    assert Visits(doc, path[i], path[i+1]);
    SameTarget(doc, path[i], path[|path|-1], p, path[i+1]);
    assert forall j :: 0 <= j < |round| ==> round[j] == path[i+1+j];
    assert round[|round|-1] == path[|path|-1];
  }

  /** Following culprits, a walk must come to some location twice. */
  lemma {:induction false} FindCycle(doc: Document, path: seq<Value>, v: Value, seen: set<string>)
    returns (longer: seq<Value>, round: seq<Value>)
    requires TidyDocument(doc) && Walk(doc, path) && v == path[|path|-1] && !Normalizes(doc, v)
    requires forall j :: 0 <= j < |path| ==> Tidy(doc, path[j])
    requires seen <= doc.Keys
    requires forall p :: p in seen ==> exists i :: 0 <= i < |path| - 1 && RefersTo(path[i], p)
    ensures Walk(doc, longer) && longer[0] == path[0] && longer[|longer|-1] in round && Cycle(doc, round)
    decreases doc.Keys - seen, v
  {
    hide Tidy, Visits, Normalizes, Cycle, TidyDocument, RefersTo;
    var w := Culprit(doc, v);
    var next := path + [w];
    assert forall j :: 0 <= j < |path| ==> next[j] == path[j];
    assert Walk(doc, next);
    if !IsRef(v) {
      KeepSeen(path, w, seen);
      longer, round := FindCycle(doc, next, w, seen);
    } else {
      var p := TidyRefersTo(doc, v);
      if p in seen {
        var i :| 0 <= i < |path| - 1 && RefersTo(path[i], p);
        round := CloseCycle(doc, path, p, i);
        longer := path;
      } else {
        KeepSeen(path, w, seen);
        assert RefersTo(next[|path|-1], p);
        assert doc.Keys - (seen + {p}) < doc.Keys - seen;
        longer, round := FindCycle(doc, next, w, seen + {p});
      }
    }
  }

  lemma KeepSeen(path: seq<Value>, w: Value, seen: set<string>)
    requires forall p :: p in seen ==> exists i :: 0 <= i < |path| - 1 && RefersTo(path[i], p)
    ensures forall p :: p in seen ==> exists i :: 0 <= i < |path + [w]| - 1 && RefersTo((path + [w])[i], p)
  {
    forall p | p in seen ensures exists i :: 0 <= i < |path + [w]| - 1 && RefersTo((path + [w])[i], p) {
      var i :| 0 <= i < |path| - 1 && RefersTo(path[i], p);
      assert (path + [w])[i] == path[i];
    }
  }

  /** On a tidy document a value can be normalized if and only if nothing it leads to is on a
      cycle. */
  lemma NormalizesIffNoCycle(doc: Document, v: Value)
    requires TidyDocument(doc) && Tidy(doc, v)
    ensures Normalizes(doc, v) <==> !exists path, round :: LeadsToCycle(doc, v, path, round)
  {
    if path, round :| LeadsToCycle(doc, v, path, round) {
      forall fuel: nat ensures !Normalize(doc, v, fuel).Ok? {
        LeadingToCycleDiverges(doc, path, round, fuel);
      }
    }
    if !Normalizes(doc, v) {
      var path, round := FindCycle(doc, [v], v, {});
      assert LeadsToCycle(doc, v, path, round);
    }
  }

  // ----- meaning --------------------------------------------------------------------------

  /** The full unfolding: a reference stands for whatever its target stands for, however many
      references lead there. */
  function Unfold(doc: Document, v: Value, fuel: nat): Normalized
    decreases fuel, 1
  {
    if fuel == 0 then Err(Diverged)
    else if IsRef(v) then
      match Resolve(doc, v)
      case Err(e) => Err(e)
      case Ok(target) => Unfold(doc, target, fuel - 1)
    else
      match v
      case Object(fields) => CollectFields(UnfoldFields(doc, fields, fuel - 1))
      case Array(items) => CollectItems(UnfoldItems(doc, items, fuel - 1))
      case leaf => Ok(leaf)
  }

  function UnfoldFields(doc: Document, fields: map<string, Value>, fuel: nat): map<string, Normalized>
    decreases fuel, 2
  {
    map k | k in fields :: Unfold(doc, fields[k], fuel)
  }

  function UnfoldItems(doc: Document, items: seq<Value>, fuel: nat): seq<Normalized>
    decreases fuel, 2
  {
    seq(|items|, i requires 0 <= i < |items| => Unfold(doc, items[i], fuel))
  }

  /** No reference inside the value that normalizing follows leads to a reference. */
  ghost predicate PlainTargets(doc: Document, v: Value)
    decreases v
  {
    if IsRef(v) then Resolve(doc, v).Ok? ==> !IsRef(Resolve(doc, v).value)
    else
      match v
      case Object(fields) => forall k :: k in fields ==> PlainTargets(doc, fields[k])
      case Array(items) => forall i :: 0 <= i < |items| ==> PlainTargets(doc, items[i])
      case _ => true
  }

  /** No reference of the document leads to a reference. */
  ghost predicate NoChains(doc: Document) {
    forall p :: p in doc ==> PlainTargets(doc, doc[p])
  }

  /** Without chained references normalizing is the full unfolding: what the unfolding
      answers, normalizing answers with the same fuel ... */
  lemma {:induction false} UnfoldNormalizes(doc: Document, v: Value, fuel: nat)
    requires NoChains(doc) && PlainTargets(doc, v) && Unfold(doc, v, fuel).Ok?
    ensures Normalize(doc, v, fuel) == Unfold(doc, v, fuel)
    decreases fuel
  {
    if IsRef(v) {
      var target := Resolve(doc, v).value;
      assert !IsRef(target) && PlainTargets(doc, target);
      UnfoldNormalizes(doc, target, fuel - 1);
      assert Normalize(doc, v, fuel) == Normalize(doc, target, fuel);
      FuelIsIrrelevant(doc, target, fuel - 1, fuel);
    } else {
      match v
      case Object(fields) =>
        var parts, others := UnfoldFields(doc, fields, fuel - 1), FieldParts(doc, fields, fuel - 1);
        forall k | k in parts ensures others[k] == parts[k] {
          UnfoldNormalizes(doc, fields[k], fuel - 1);
        }
        assert others == parts;
      case Array(items) =>
        var parts, others := UnfoldItems(doc, items, fuel - 1), ItemParts(doc, items, fuel - 1);
        forall i | 0 <= i < |parts| ensures others[i] == parts[i] {
          assert parts[i] == Unfold(doc, items[i], fuel - 1);
          UnfoldNormalizes(doc, items[i], fuel - 1);
        }
        assert others == parts;
      case _ =>
    }
  }

  /** ... and what normalizing answers, the unfolding answers with twice the fuel. */
  lemma {:induction false} NormalizeUnfolds(doc: Document, v: Value, fuel: nat)
    requires NoChains(doc) && PlainTargets(doc, v) && Normalize(doc, v, fuel).Ok?
    ensures Unfold(doc, v, 2 * fuel) == Normalize(doc, v, fuel)
    decreases fuel, 1
  {
    var target := Resolve(doc, v).value;
    assert !IsRef(target) && PlainTargets(doc, target);
    NormalizeUnfoldsTarget(doc, target, fuel);
    if IsRef(v) {
      assert Unfold(doc, v, 2 * fuel) == Unfold(doc, target, 2 * fuel - 1);
    } else {
      UnfoldMore(doc, v, 2 * fuel - 1, 2 * fuel);
    }
  }

  lemma {:induction false} NormalizeUnfoldsTarget(doc: Document, v: Value, fuel: nat)
    requires NoChains(doc) && PlainTargets(doc, v) && !IsRef(v) && Normalize(doc, v, fuel).Ok?
    ensures Unfold(doc, v, 2 * fuel - 1) == Normalize(doc, v, fuel)
    decreases fuel, 0
  {
    match v
    case Object(fields) =>
      var parts, others := FieldParts(doc, fields, fuel - 1), UnfoldFields(doc, fields, 2 * fuel - 2);
      forall k | k in others ensures others[k] == parts[k] {
        assert parts[k].Ok?;
        NormalizeUnfolds(doc, fields[k], fuel - 1);
      }
      assert others == parts;
    case Array(items) =>
      var parts, others := ItemParts(doc, items, fuel - 1), UnfoldItems(doc, items, 2 * fuel - 2);
      forall i | 0 <= i < |parts| ensures others[i] == parts[i] {
        assert parts[i] == Normalize(doc, items[i], fuel - 1);
        NormalizeUnfolds(doc, items[i], fuel - 1);
      }
      assert others == parts;
    case _ =>
  }

  lemma {:induction false} UnfoldMore(doc: Document, v: Value, fuel: nat, more: nat)
    requires fuel <= more && Unfold(doc, v, fuel).Ok?
    ensures Unfold(doc, v, more) == Unfold(doc, v, fuel)
    decreases fuel
  {
    if IsRef(v) {
      UnfoldMore(doc, Resolve(doc, v).value, fuel - 1, more - 1);
    } else {
      match v
      case Object(fields) =>
        var parts, others := UnfoldFields(doc, fields, fuel - 1), UnfoldFields(doc, fields, more - 1);
        forall k | k in parts ensures others[k] == parts[k] {
          UnfoldMore(doc, fields[k], fuel - 1, more - 1);
        }
        assert others == parts;
      case Array(items) =>
        var parts, others := UnfoldItems(doc, items, fuel - 1), UnfoldItems(doc, items, more - 1);
        forall i | 0 <= i < |parts| ensures others[i] == parts[i] {
          assert parts[i] == Unfold(doc, items[i], fuel - 1);
          UnfoldMore(doc, items[i], fuel - 1, more - 1);
        }
        assert others == parts;
      case _ =>
    }
  }

  /** A chained reference loses its content: normalizing follows one reference and drops the
      `$ref` key it finds there. Whatever the chain leads to, an empty schema is left, which is
      right exactly when the chain leads to an empty schema. */
  lemma ChainsLoseContent(doc: Document, p: string, q: string, fuel: nat)
    requires p in doc && q in doc && doc[p] == Reference(q) && fuel >= 2
    ensures Normalize(doc, Reference(p), fuel) == Ok(Object(map[]))
    ensures Unfold(doc, Reference(p), fuel) == Normalize(doc, Reference(p), fuel) <==>
            Unfold(doc, doc[q], fuel - 2) == Ok(Object(map[]))
  {
    assert ("#" + p)[1..] == p && ("#" + q)[1..] == q;
    assert Resolve(doc, Reference(p)) == Ok(doc[p]) && Resolve(doc, doc[p]) == Ok(doc[q]);
    assert FieldParts(doc, doc[p].fields, fuel - 1) == map[];
    assert Unfold(doc, Reference(p), fuel) == Unfold(doc, doc[p], fuel - 1) == Unfold(doc, doc[q], fuel - 2);
  }

  /** No key stands beside a `$ref`, at any depth. */
  ghost predicate Lone(v: Value)
    decreases v
  {
    && (IsRef(v) ==> v.fields.Keys == {"$ref"})
    && match v
       case Object(fields) => forall k :: k in fields ==> Lone(fields[k])
       case Array(items) => forall i :: 0 <= i < |items| ==> Lone(items[i])
       case _ => true
  }

  ghost predicate LoneDocument(doc: Document) {
    forall p :: p in doc ==> Lone(doc[p])
  }

  /** Every chained reference that normalizing comes upon leads to an empty schema. */
  ghost predicate Harmless(doc: Document, v: Value, fuel: nat, enough: nat)
    decreases fuel
  {
    fuel > 0 && Resolve(doc, v).Ok? ==>
      if IsRef(v) && IsRef(Resolve(doc, v).value) then Unfold(doc, v, enough) == Ok(Object(map[]))
      else
        match Resolve(doc, v).value
        case Object(fields) => forall k :: k in fields ==> Harmless(doc, fields[k], fuel - 1, enough)
        case Array(items) => forall i :: 0 <= i < |items| ==> Harmless(doc, items[i], fuel - 1, enough)
        case _ => true
  }

  lemma NormalizeOne(doc: Document, v: Value, fuel: nat)
    requires fuel > 0 && Resolve(doc, v).Ok?
    ensures Normalize(doc, v, fuel) == NormalizeResolved(doc, Resolve(doc, v).value, fuel)
  {
  }

  /** What an unfolding makes of a value that is not a reference. */
  ghost function UnfoldResolved(doc: Document, v: Value, fuel: nat): Normalized {
    match v
    case Object(fields) => CollectFields(UnfoldFields(doc, fields, fuel))
    case Array(items) => CollectItems(UnfoldItems(doc, items, fuel))
    case leaf => Ok(leaf)
  }

  lemma UnfoldOne(doc: Document, v: Value, enough: nat) returns (g: nat)
    requires Resolve(doc, v).Ok? && !IsRef(Resolve(doc, v).value) && Unfold(doc, v, enough).Ok?
    ensures g <= enough
    ensures Unfold(doc, v, enough) == UnfoldResolved(doc, Resolve(doc, v).value, g)
  {
    g := if IsRef(v) then enough - 2 else enough - 1;
  }

  lemma HarmlessOne(doc: Document, v: Value, fuel: nat, enough: nat)
    requires fuel > 0 && Resolve(doc, v).Ok?
    ensures var target := Resolve(doc, v).value;
            Harmless(doc, v, fuel, enough) <==>
            if IsRef(v) && IsRef(target) then Unfold(doc, v, enough) == Ok(Object(map[]))
            else
              && (target.Object? ==> forall k :: k in target.fields ==> Harmless(doc, target.fields[k], fuel - 1, enough))
              && (target.Array? ==> forall i :: 0 <= i < |target.items| ==> Harmless(doc, target.items[i], fuel - 1, enough))
  {
  }

  lemma LoneTarget(doc: Document, v: Value)
    requires LoneDocument(doc) && Lone(v) && Resolve(doc, v).Ok?
    ensures var target := Resolve(doc, v).value;
            && Lone(target)
            && (target.Object? ==> forall k :: k in target.fields ==> Lone(target.fields[k]))
            && (target.Array? ==> forall i :: 0 <= i < |target.items| ==> Lone(target.items[i]))
  {
    assert Lone(Resolve(doc, v).value);
  }

  lemma NormalizedResolves(doc: Document, v: Value, fuel: nat)
    requires Normalize(doc, v, fuel).Ok?
    ensures fuel > 0 && Resolve(doc, v).Ok?
  {
  }

  /** Normalizing is the full unfolding if and only if every chained reference it comes upon, at
      whatever depth, leads to an empty schema. */
  lemma {:induction false} UnfoldingIffHarmless(doc: Document, v: Value, fuel: nat, enough: nat)
    requires LoneDocument(doc) && Lone(v)
    requires Normalize(doc, v, fuel).Ok? && Unfold(doc, v, enough).Ok?
    ensures Normalize(doc, v, fuel) == Unfold(doc, v, enough) <==> Harmless(doc, v, fuel, enough)
    decreases fuel, 0
  {
    hide Normalize, Unfold, Harmless, Lone, LoneDocument, Resolve;
    hide FieldParts, ItemParts, UnfoldFields, UnfoldItems, CollectFields, CollectItems;
    NormalizedResolves(doc, v, fuel);
    var target := Resolve(doc, v).value;
    LoneTarget(doc, v);
    HarmlessOne(doc, v, fuel, enough);
    if IsRef(v) && IsRef(target) {
      ChainNormalizes(doc, v, fuel);
    } else {
      NormalizeOne(doc, v, fuel);
      ResolvedOnce(doc, v);
      var g := UnfoldOne(doc, v, enough);
      match target
      case Object(fields) => FieldsIffHarmless(doc, fields, fuel - 1, g, enough);
      case Array(items) => ItemsIffHarmless(doc, items, fuel - 1, g, enough);
      case _ =>
    }
  }

  lemma ResolvedOnce(doc: Document, v: Value)
    requires Resolve(doc, v).Ok?
    ensures !IsRef(v) ==> Resolve(doc, v).value == v
  {
  }

  lemma ChainNormalizes(doc: Document, v: Value, fuel: nat)
    requires fuel > 0 && Resolve(doc, v).Ok? && IsRef(Resolve(doc, v).value) && Lone(Resolve(doc, v).value)
    ensures Normalize(doc, v, fuel) == Ok(Object(map[]))
  {
    assert FieldParts(doc, Resolve(doc, v).value.fields, fuel - 1) == map[];
  }

  lemma {:induction false} FieldsIffHarmless(doc: Document, fields: map<string, Value>, fuel: nat, g: nat, enough: nat)
    requires LoneDocument(doc) && "$ref" !in fields && g <= enough
    requires forall k :: k in fields ==> Lone(fields[k])
    requires CollectFields(FieldParts(doc, fields, fuel)).Ok? && CollectFields(UnfoldFields(doc, fields, g)).Ok?
    ensures CollectFields(FieldParts(doc, fields, fuel)) == CollectFields(UnfoldFields(doc, fields, g)) <==>
            forall k :: k in fields ==> Harmless(doc, fields[k], fuel, enough)
    decreases fuel, 1
  {
    hide Normalize, Unfold, Harmless, Lone, CollectFields;
    var parts, others := FieldParts(doc, fields, fuel), UnfoldFields(doc, fields, g);
    forall k | k in fields ensures parts[k] == others[k] <==> Harmless(doc, fields[k], fuel, enough) {
      assert parts[k].Ok? && others[k].Ok?;
      UnfoldMore(doc, fields[k], g, enough);
      UnfoldingIffHarmless(doc, fields[k], fuel, enough);
    }
    var x, y := CollectFields(parts).value.fields, CollectFields(others).value.fields;
    assert x.Keys == y.Keys == fields.Keys;
    assert x == y <==> forall k :: k in fields ==> x[k] == y[k];
    assert forall k :: k in fields ==> (x[k] == y[k] <==> parts[k] == others[k]);
  }

  lemma {:induction false} ItemsIffHarmless(doc: Document, items: seq<Value>, fuel: nat, g: nat, enough: nat)
    requires LoneDocument(doc) && g <= enough
    requires forall i :: 0 <= i < |items| ==> Lone(items[i])
    requires CollectItems(ItemParts(doc, items, fuel)).Ok? && CollectItems(UnfoldItems(doc, items, g)).Ok?
    ensures CollectItems(ItemParts(doc, items, fuel)) == CollectItems(UnfoldItems(doc, items, g)) <==>
            forall i :: 0 <= i < |items| ==> Harmless(doc, items[i], fuel, enough)
    decreases fuel, 1
  {
    hide Normalize, Unfold, Harmless, Lone, CollectItems;
    var parts, others := ItemParts(doc, items, fuel), UnfoldItems(doc, items, g);
    forall i | 0 <= i < |items| ensures parts[i] == others[i] <==> Harmless(doc, items[i], fuel, enough) {
      assert parts[i] == Normalize(doc, items[i], fuel) && others[i] == Unfold(doc, items[i], g);
      assert parts[i].Ok? && others[i].Ok?;
      UnfoldMore(doc, items[i], g, enough);
      UnfoldingIffHarmless(doc, items[i], fuel, enough);
    }
    var x, y := CollectItems(parts).value.items, CollectItems(others).value.items;
    assert x == y <==> forall i :: 0 <= i < |items| ==> x[i] == y[i];
    assert forall i :: 0 <= i < |items| ==> (x[i] == y[i] <==> parts[i] == others[i]);
  }

  /** So a schema that rejects everything can turn into one that accepts everything. */
  lemma ChainedFalseSchema()
    ensures var doc: Document := map["a" := Reference("b"), "b" := Bool(false)];
            && Normalize(doc, Reference("a"), 3) == Ok(Object(map[]))
            && Unfold(doc, Reference("a"), 3) == Ok(Bool(false))
  {
    var doc: Document := map["a" := Reference("b"), "b" := Bool(false)];
    ChainsLoseContent(doc, "a", "b", 3);
    assert "#a"[1..] == "a" && "#b"[1..] == "b";
    assert Resolve(doc, Reference("a")) == Ok(doc["a"]) && Resolve(doc, doc["a"]) == Ok(doc["b"]);
    assert Unfold(doc, doc["a"], 2) == Unfold(doc, doc["b"], 1);
  }
}
