/** The contract validator: a recursive interpreter of JSON schemas whose references may point anywhere.
    Reading files, messages and the self-check of schema keywords are not modelled: a table gives each
    schema node by identifier, with its references already resolved. Patterns are given by the strings they match. */
module SchemaValidator {
  import opened Wrappers

  datatype Json =
    | Null
    | Boolean(truth: bool)
    | Whole(number: int)
    | Decimal(amount: real)
    | Text(text: string)
    | Array(items: seq<Json>)
    | Object(fields: map<string, Json>)

  datatype TypeName = ObjectType | ArrayType | StringType | IntegerType | NumberType | BooleanType | NullType

  type Id = nat

  datatype Node = Node(
    ref: Option<Id>, typeName: Option<TypeName>, constant: Option<Json>, choices: Option<seq<string>>,
    required: set<string>, properties: map<string, Id>, closed: bool,
    minItems: nat, maxItems: Option<nat>, items: Option<Id>, uniqueItems: bool,
    minLength: nat, maxLength: Option<nat>, pattern: Option<string -> bool>,
    minimum: Option<real>, maximum: Option<real>, allOf: seq<Id>, oneOf: Option<seq<Id>>, forbidden: Option<Id>)

  type Table = map<Id, Node>

  // ----- Equality of values -----

  function Amount(value: Json): real
    requires value.Whole? || value.Decimal?
  {
    if value.Whole? then value.number as real else value.amount
  }

  predicate IsNumber(value: Json) {
    value.Whole? || value.Decimal?
  }

  /** Numbers are equal by amount, so 1 and 1.0 are; a boolean is never a number. */
  predicate JsonEqual(left: Json, right: Json)
    decreases left
  {
    if left.Boolean? || right.Boolean? then left == right
    else if left.Object? && right.Object? then
      left.fields.Keys == right.fields.Keys
      && forall k :: k in left.fields ==> JsonEqual(left.fields[k], right.fields[k])
    else if left.Array? && right.Array? then
      |left.items| == |right.items| && forall i :: 0 <= i < |left.items| ==> JsonEqual(left.items[i], right.items[i])
    else if IsNumber(left) && IsNumber(right) then Amount(left) == Amount(right)
    else left == right
  }

  lemma {:induction false} EqualIsReflexive(a: Json)
    ensures JsonEqual(a, a)
  {
    match a
    case Array(items) => forall i | 0 <= i < |items| ensures JsonEqual(items[i], items[i]) { EqualIsReflexive(items[i]); }
    case Object(fields) => forall k | k in fields ensures JsonEqual(fields[k], fields[k]) { EqualIsReflexive(fields[k]); }
    case _ =>
  }

  lemma {:induction false} EqualIsSymmetric(a: Json, b: Json)
    requires JsonEqual(a, b)
    ensures JsonEqual(b, a)
  {
    if a.Array? && b.Array? {
      forall i | 0 <= i < |b.items| ensures JsonEqual(b.items[i], a.items[i]) { EqualIsSymmetric(a.items[i], b.items[i]); }
    } else if a.Object? && b.Object? {
      forall k | k in b.fields ensures JsonEqual(b.fields[k], a.fields[k]) {
        assert k in a.fields.Keys;
        EqualIsSymmetric(a.fields[k], b.fields[k]);
      }
    }
  }

  lemma {:induction false} EqualIsTransitive(a: Json, b: Json, c: Json)
    requires JsonEqual(a, b) && JsonEqual(b, c)
    ensures JsonEqual(a, c)
  {
    if a.Array? && b.Array? && c.Array? {
      forall i | 0 <= i < |a.items| ensures JsonEqual(a.items[i], c.items[i]) {
        EqualIsTransitive(a.items[i], b.items[i], c.items[i]);
      }
    } else if a.Object? && b.Object? && c.Object? {
      forall k | k in a.fields ensures JsonEqual(a.fields[k], c.fields[k]) {
        assert k in b.fields.Keys;
        EqualIsTransitive(a.fields[k], b.fields[k], c.fields[k]);
      }
    }
  }

  /** The value with every number as a decimal. */
  function Canonical(value: Json): Json {
    match value
    case Whole(number) => Decimal(number as real)
    case Array(items) => Array(seq(|items|, i requires 0 <= i < |items| => Canonical(items[i])))
    case Object(fields) => Object(map k | k in fields :: Canonical(fields[k]))
    case _ => value
  }

  /** Equality is that of values whose numbers are all decimal: nothing else is equal. */
  lemma {:induction false} EqualIffSameCanonical(a: Json, b: Json)
    ensures JsonEqual(a, b) <==> Canonical(a) == Canonical(b)
    decreases a
  {
    if a.Array? && b.Array? {
      var c, d := Canonical(a).items, Canonical(b).items;
      if |a.items| == |b.items| {
        forall i | 0 <= i < |a.items| ensures JsonEqual(a.items[i], b.items[i]) <==> c[i] == d[i] {
          EqualIffSameCanonical(a.items[i], b.items[i]);
        }
        assert (forall i :: 0 <= i < |a.items| ==> JsonEqual(a.items[i], b.items[i])) <==> c == d;
      }
    } else if a.Object? && b.Object? {
      var c, d := Canonical(a).fields, Canonical(b).fields;
      assert c.Keys == a.fields.Keys && d.Keys == b.fields.Keys;
      if a.fields.Keys == b.fields.Keys {
        forall k | k in a.fields ensures k in b.fields && (JsonEqual(a.fields[k], b.fields[k]) <==> c[k] == d[k]) {
          assert k in b.fields.Keys;
          EqualIffSameCanonical(a.fields[k], b.fields[k]);
        }
        assert (forall k :: k in a.fields ==> JsonEqual(a.fields[k], b.fields[k])) <==> c == d;
      }
    }
  }

  // ----- Termination -----

  /** The nodes that the interpreter goes on to for the same value. */
  function Here(n: Node): set<Id> {
    (if n.ref.Some? then {n.ref.value} else {}) + (set i | i in n.allOf)
    + (if n.oneOf.Some? then set i | i in n.oneOf.value else {}) + (if n.forbidden.Some? then {n.forbidden.value} else {})
  }

  /** The nodes that it goes on to for a part of the value. */
  function Below(n: Node): set<Id> {
    n.properties.Values + if n.items.Some? then {n.items.value} else {}
  }

  /** Every reference resolves. */
  ghost predicate Resolved(table: Table) {
    forall id :: id in table ==> Here(table[id]) <= table.Keys && Below(table[id]) <= table.Keys
  }

  ghost predicate IsPath(table: Table, p: seq<Id>) {
    && |p| >= 2 && (forall k :: 0 <= k < |p| ==> p[k] in table)
    && forall k :: 0 < k < |p| ==> p[k] in Here(table[p[k - 1]])
  }

  /** No chain of references and combinators at one place of the value comes back to where it began. */
  ghost predicate Acyclic(table: Table) {
    forall p :: IsPath(table, p) ==> p[0] != p[|p| - 1]
  }

  ghost predicate Leads(table: Table, a: Id, b: Id) {
    exists p :: IsPath(table, p) && p[0] == a && p[|p| - 1] == b
  }

  ghost function Reach(table: Table, id: Id): set<Id> {
    set m | m in table && Leads(table, id, m)
  }

  ghost function Rank(table: Table, id: Id): nat {
    |Reach(table, id)|
  }

  lemma SmallerSet(a: set<Id>, b: set<Id>, x: Id)
    requires a <= b && x in b && x !in a
    ensures |a| < |b|
  {
    assert b == a + (b - a);
    assert x in b - a;
  }

  /** Going on to another node at the same place leaves fewer nodes to reach. */
  lemma HereDescends(table: Table, id: Id, m: Id)
    requires Resolved(table) && Acyclic(table) && id in table && m in Here(table[id])
    ensures m in table && Rank(table, m) < Rank(table, id)
  {
    assert m in table;
    assert IsPath(table, [id, m]);
    assert [id, m][0] == id && [id, m][1] == m;
    forall x | x in Reach(table, m) ensures x in Reach(table, id) {
      var p :| IsPath(table, p) && p[0] == m && p[|p| - 1] == x;
      var q := [id] + p;
      forall k | 0 < k < |q| ensures q[k] in Here(table[q[k - 1]]) {
        assert k > 1 ==> q[k] == p[k - 1] && q[k - 1] == p[k - 2];
      }
      assert IsPath(table, q) && q[0] == id && q[|q| - 1] == x;
    }
    SmallerSet(Reach(table, m), Reach(table, id), m);
  }

  /** A table is free of cycles exactly when its nodes can be numbered so that each step goes down. */
  ghost predicate Descends(table: Table, depth: map<Id, nat>) {
    depth.Keys == table.Keys && forall id, m :: id in table && m in Here(table[id]) ==> m in depth && depth[m] < depth[id]
  }

  lemma {:induction false} PathDescends(table: Table, depth: map<Id, nat>, p: seq<Id>)
    requires Descends(table, depth) && IsPath(table, p)
    ensures depth[p[|p| - 1]] < depth[p[0]]
    decreases |p|
  {
    hide Here;
    assert p[1] in Here(table[p[0]]);
    if |p| > 2 {
      var q := p[1..];
      forall k | 0 < k < |q| ensures q[k] in Here(table[q[k - 1]]) { assert q[k] == p[k + 1] && q[k - 1] == p[k]; }
      PathDescends(table, depth, q);
    }
  }

  lemma AcyclicIffNumbered(table: Table)
    requires Resolved(table)
    ensures Acyclic(table) <==> exists depth :: Descends(table, depth)
  {
    if Acyclic(table) {
      var depth := map id | id in table :: Rank(table, id);
      forall id, m | id in table && m in Here(table[id]) ensures m in depth && depth[m] < depth[id] {
        HereDescends(table, id, m);
      }
      assert Descends(table, depth);
    }
    if depth :| Descends(table, depth) {
      forall p | IsPath(table, p) ensures p[0] != p[|p| - 1] { PathDescends(table, depth, p); }
    }
  }

  /** Steps at one place of the value, without end. */
  ghost predicate Endless(table: Table, walk: nat -> Id) {
    forall k: nat :: walk(k) in table && walk(k + 1) in Here(table[walk(k)])
  }

  ghost predicate IsCycle(table: Table, p: seq<Id>) {
    IsPath(table, p) && p[0] == p[|p| - 1]
  }

  /** Going round a cycle of n steps. */
  ghost function Turn(k: nat, n: nat): (i: nat)
    requires n > 0
    ensures i < n
  {
    if k == 0 then 0
    else
      var before := Turn(k - 1, n);
      if before + 1 == n then 0 else before + 1
  }

  ghost function Around(p: seq<Id>): nat -> Id
    requires |p| >= 2
  {
    (k: nat) => p[Turn(k, |p| - 1)]
  }

  lemma NextAround(p: seq<Id>, k: nat)
    requires |p| >= 2 && p[0] == p[|p| - 1]
    ensures var i := Turn(k, |p| - 1); Around(p)(k) == p[i] && Around(p)(k + 1) == p[i + 1]
  {
  }

  lemma CycleIsEndless(table: Table, p: seq<Id>)
    requires IsCycle(table, p)
    ensures Endless(table, Around(p))
  {
    hide Here;
    forall k: nat ensures Around(p)(k) in table && Around(p)(k + 1) in Here(table[Around(p)(k)]) {
      NextAround(p, k);
      var i := Turn(k, |p| - 1);
      assert p[i + 1] in Here(table[p[i]]);
    }
  }

  /** A cycle of references alone: the reference is followed before anything is asked of the value, so
      whatever the payload, descent goes from reference to reference for ever. */
  lemma ReferencesNeverEnd(table: Table, p: seq<Id>)
    requires |p| >= 2 && p[0] == p[|p| - 1] && (forall k :: 0 <= k < |p| ==> p[k] in table)
    requires forall k :: 0 < k < |p| ==> table[p[k - 1]].ref == Some(p[k])
    ensures forall k: nat :: Around(p)(k) in table && table[Around(p)(k)].ref == Some(Around(p)(k + 1))
    ensures !Acyclic(table)
  {
    forall k: nat ensures Around(p)(k) in table && table[Around(p)(k)].ref == Some(Around(p)(k + 1)) {
      NextAround(p, k);
      var i := Turn(k, |p| - 1);
      assert table[p[i + 1 - 1]].ref == Some(p[i + 1]);
    }
    assert IsPath(table, p);
  }

  lemma {:induction false} WalkDescends(table: Table, walk: nat -> Id, k: nat)
    requires Resolved(table) && Acyclic(table) && Endless(table, walk)
    ensures walk(k) in table && walk(0) in table && Rank(table, walk(k)) + k <= Rank(table, walk(0))
  {
    hide Acyclic, Here, Rank, Resolved;
    if k > 0 {
      WalkDescends(table, walk, k - 1);
      assert walk(k - 1 + 1) in Here(table[walk(k - 1)]);
      HereDescends(table, walk(k - 1), walk(k));
    }
  }

  /** Steps at one place end in every table without cycles, and in no other. */
  lemma AcyclicIffNeverEndless(table: Table)
    requires Resolved(table)
    ensures Acyclic(table) <==> !exists walk :: Endless(table, walk)
  {
    if Acyclic(table) {
      hide Acyclic, Resolved, Rank, Here;
      forall walk | Endless(table, walk) ensures false {
        WalkDescends(table, walk, 0);
        WalkDescends(table, walk, Rank(table, walk(0)) + 1);
      }
    } else {
      var p :| IsPath(table, p) && p[0] == p[|p| - 1];
      CycleIsEndless(table, p);
    }
  }

  // ----- The interpreter -----

  predicate MatchesType(value: Json, typeName: TypeName) {
    match typeName
    case ObjectType => value.Object?
    case ArrayType => value.Array?
    case StringType => value.Text?
    case BooleanType => value.Boolean?
    case NullType => value.Null?
    case IntegerType => value.Whole?
    case NumberType => IsNumber(value)
  }

  /** The constant and the enumeration, which relaxed validation ignores. */
  predicate Listed(value: Json, n: Node) {
    && (n.constant.Some? ==> JsonEqual(value, n.constant.value))
    && (n.choices.Some? ==> exists i :: 0 <= i < |n.choices.value| && JsonEqual(value, Text(n.choices.value[i])))
  }

  /** Every keyword that looks at the value without another node. */
  predicate Plain(value: Json, n: Node) {
    && (n.typeName.Some? ==> MatchesType(value, n.typeName.value))
    && (value.Object? ==>
          && n.required <= value.fields.Keys && (n.closed ==> value.fields.Keys <= n.properties.Keys))
    && (value.Array? ==>
          && n.minItems <= |value.items| && (n.maxItems.Some? ==> |value.items| <= n.maxItems.value)
          && (n.uniqueItems ==> forall i, j :: 0 <= j < i < |value.items| ==> !JsonEqual(value.items[i], value.items[j])))
    && (value.Text? ==>
          && n.minLength <= |value.text| && (n.maxLength.Some? ==> |value.text| <= n.maxLength.value)
          && (n.pattern.Some? ==> n.pattern.value(value.text)))
    && (IsNumber(value) ==>
          && (n.minimum.Some? ==> n.minimum.value <= Amount(value)) && (n.maximum.Some? ==> Amount(value) <= n.maximum.value))
  }

  lemma AllHereDescend(table: Table, id: Id)
    requires Resolved(table) && Acyclic(table) && id in table
    ensures forall m :: m in Here(table[id]) ==> m in table && Rank(table, m) < Rank(table, id)
    ensures forall m :: m in Below(table[id]) ==> m in table
  {
    forall m | m in Here(table[id]) ensures m in table && Rank(table, m) < Rank(table, id) { HereDescends(table, id, m); }
  }

  /** A value is accepted at a node. The measure is the value, then what the node still leads to. */
  ghost predicate Accepts(table: Table, value: Json, id: Id, relax: bool)
    requires Resolved(table) && Acyclic(table) && id in table
    decreases value, Rank(table, id), 2
  {
    && (relax || Listed(value, table[id])) && Plain(value, table[id])
    && PartsAccepted(table, value, id, relax) && AllAccepted(table, value, id, relax) && OneAccepted(table, value, id, relax)
  }

  /** Known fields and items are accepted at their own nodes. */
  ghost predicate PartsAccepted(table: Table, value: Json, id: Id, relax: bool)
    requires Resolved(table) && Acyclic(table) && id in table
    decreases value, Rank(table, id), 0
  {
    AllHereDescend(table, id);
    var n := table[id];
    && (value.Object? ==> forall name :: name in value.fields && name in n.properties ==>
          n.properties[name] in Below(n) && Accepts(table, value.fields[name], n.properties[name], relax))
    && (value.Array? && n.items.Some? ==> forall i :: 0 <= i < |value.items| ==>
          Accepts(table, value.items[i], n.items.value, relax))
  }

  /** The reference and every branch of `allOf` accept. */
  ghost predicate AllAccepted(table: Table, value: Json, id: Id, relax: bool)
    requires Resolved(table) && Acyclic(table) && id in table
    decreases value, Rank(table, id), 0
  {
    AllHereDescend(table, id);
    var n := table[id];
    && (n.ref.Some? ==> Accepts(table, value, n.ref.value, relax))
    && (forall i :: 0 <= i < |n.allOf| ==> n.allOf[i] in Here(n) && Accepts(table, value, n.allOf[i], relax))
  }

  ghost predicate ExactlyOne(verdicts: seq<bool>) {
    exists i :: 0 <= i < |verdicts| && verdicts[i] && forall j :: 0 <= j < |verdicts| && j != i ==> !verdicts[j]
  }

  /** What each branch says of the value. */
  ghost function Verdicts(table: Table, value: Json, id: Id, branches: seq<Id>, relax: bool): (verdicts: seq<bool>)
    requires Resolved(table) && Acyclic(table) && id in table && forall m :: m in branches ==> m in Here(table[id])
    ensures |verdicts| == |branches|
    decreases value, Rank(table, id), 0, |branches|
  {
    if branches == [] then []
    else
      AllHereDescend(table, id);
      assert branches[0] in Here(table[id]);
      [Accepts(table, value, branches[0], relax)] + Verdicts(table, value, id, branches[1..], relax)
  }

  /** Exactly one branch of `oneOf` accepts, and `not` does not. */
  ghost predicate OneAccepted(table: Table, value: Json, id: Id, relax: bool)
    requires Resolved(table) && Acyclic(table) && id in table
    decreases value, Rank(table, id), 1
  {
    AllHereDescend(table, id);
    var n := table[id];
    && (n.oneOf.Some? ==> ExactlyOne(Verdicts(table, value, id, n.oneOf.value, relax)))
    && (n.forbidden.Some? ==> !Accepts(table, value, n.forbidden.value, relax))
  }

  lemma {:induction false} VerdictAt(table: Table, value: Json, id: Id, branches: seq<Id>, relax: bool, i: nat)
    requires Resolved(table) && Acyclic(table) && id in table && forall m :: m in branches ==> m in Here(table[id])
    requires i < |branches|
    ensures branches[i] in table && Verdicts(table, value, id, branches, relax)[i] == Accepts(table, value, branches[i], relax)
  {
    hide Accepts, Acyclic, Here;
    assert branches[i] in Here(table[id]);
    AllHereDescend(table, id);
    if i > 0 { VerdictAt(table, value, id, branches[1..], relax, i - 1); }
  }

  // ----- What a node asks for -----

  /** The type names of a value: a boolean is no number, and only a whole number is an integer. */
  function KindsOf(value: Json): set<TypeName> {
    match value
    case Null => {NullType}
    case Boolean(_) => {BooleanType}
    case Whole(_) => {IntegerType, NumberType}
    case Decimal(_) => {NumberType}
    case Text(_) => {StringType}
    case Array(_) => {ArrayType}
    case Object(_) => {ObjectType}
  }

  ghost predicate Within(x: real, least: Option<real>, most: Option<real>) {
    (least.Some? ==> least.value <= x) && (most.Some? ==> x <= most.value)
  }

  ghost predicate Sized(n: nat, least: nat, most: Option<nat>) {
    least <= n && (most.Some? ==> n <= most.value)
  }

  ghost predicate AllDifferent(items: seq<Json>) {
    forall i, j :: 0 <= i < |items| && 0 <= j < |items| && i != j ==> Canonical(items[i]) != Canonical(items[j])
  }

  /** What a node asks of a value itself: its type; of an object every required field and, if the node is
      closed, no unknown one; of an array its length and, if asked, no repeated item; of a string its
      length and its pattern; of a number its bounds. */
  ghost predicate FitsKeywords(value: Json, n: Node) {
    && (n.typeName.Some? ==> n.typeName.value in KindsOf(value))
    && match value
       case Object(fields) =>
         && (forall name :: name in n.required ==> name in fields)
         && (n.closed ==> forall name :: name in fields ==> name in n.properties)
       case Array(items) => Sized(|items|, n.minItems, n.maxItems) && (n.uniqueItems ==> AllDifferent(items))
       case Text(text) => Sized(|text|, n.minLength, n.maxLength) && (n.pattern.Some? ==> n.pattern.value(text))
       case Whole(number) => Within(number as real, n.minimum, n.maximum)
       case Decimal(amount) => Within(amount, n.minimum, n.maximum)
       case _ => true
  }

  /** The constant, and one of the enumerated strings. */
  ghost predicate FitsConstants(value: Json, n: Node) {
    && (n.constant.Some? ==> Canonical(value) == Canonical(n.constant.value))
    && (n.choices.Some? ==> value.Text? && value.text in n.choices.value)
  }

  /** Everything a node asks for: of the value itself, of its fields and items at their own nodes, of the
      reference and every branch of `allOf`, of exactly one branch of `oneOf`, and not of the forbidden
      node. */
  ghost predicate FitsNode(table: Table, value: Json, id: Id, relax: bool)
    requires Resolved(table) && Acyclic(table) && id in table
  {
    var n := table[id];
    && FitsKeywords(value, n) && (!relax ==> FitsConstants(value, n))
    && (value.Object? ==> forall name :: name in value.fields && name in n.properties ==>
          n.properties[name] in table && Accepts(table, value.fields[name], n.properties[name], relax))
    && (value.Array? && n.items.Some? ==> n.items.value in table && forall item :: item in value.items ==>
          Accepts(table, item, n.items.value, relax))
    && (n.ref.Some? ==> n.ref.value in table && Accepts(table, value, n.ref.value, relax))
    && (forall m :: m in n.allOf ==> m in table && Accepts(table, value, m, relax))
    && (n.oneOf.Some? ==> exists i :: OnlyBranch(table, value, n.oneOf.value, relax, i))
    && (n.forbidden.Some? ==> n.forbidden.value in table && !Accepts(table, value, n.forbidden.value, relax))
  }

  ghost predicate OnlyBranch(table: Table, value: Json, branches: seq<Id>, relax: bool, i: nat)
    requires Resolved(table) && Acyclic(table)
  {
    && i < |branches|
    && forall j :: 0 <= j < |branches| ==> branches[j] in table && (Accepts(table, value, branches[j], relax) <==> j == i)
  }

  lemma PlainIffFits(value: Json, n: Node)
    ensures Plain(value, n) <==> FitsKeywords(value, n)
  {
    if value.Array? {
      var items := value.items;
      forall i, j | 0 <= i < |items| && 0 <= j < |items|
        ensures JsonEqual(items[i], items[j]) <==> Canonical(items[i]) == Canonical(items[j])
      {
        EqualIffSameCanonical(items[i], items[j]);
      }
      hide JsonEqual, Canonical;
      assert AllDifferent(items) <==> forall i, j :: 0 <= j < i < |items| ==> !JsonEqual(items[i], items[j]);
    }
  }

  lemma ListedIffFits(value: Json, n: Node)
    ensures Listed(value, n) <==> FitsConstants(value, n)
  {
    if n.constant.Some? { EqualIffSameCanonical(value, n.constant.value); }
    if n.choices.Some? {
      forall i | 0 <= i < |n.choices.value| ensures JsonEqual(value, Text(n.choices.value[i])) <==> value == Text(n.choices.value[i]) {}
    }
  }

  lemma OneIffOnly(table: Table, value: Json, id: Id, relax: bool)
    requires Resolved(table) && Acyclic(table) && id in table
    ensures OneAccepted(table, value, id, relax) <==>
            var n := table[id];
            && (n.oneOf.Some? ==> exists i :: OnlyBranch(table, value, n.oneOf.value, relax, i))
            && (n.forbidden.Some? ==> n.forbidden.value in table && !Accepts(table, value, n.forbidden.value, relax))
  {
    hide Accepts, Acyclic, Rank, Resolved, Verdicts;
    AllHereDescend(table, id);
    var n := table[id];
    if n.oneOf.Some? {
      var branches := n.oneOf.value;
      var verdicts := Verdicts(table, value, id, branches, relax);
      forall i | 0 <= i < |branches|
        ensures branches[i] in table && verdicts[i] == Accepts(table, value, branches[i], relax)
      {
        assert branches[i] in Here(n);
        VerdictAt(table, value, id, branches, relax, i);
      }
      assert ExactlyOne(verdicts) <==> exists i :: OnlyBranch(table, value, branches, relax, i) by {
        if ExactlyOne(verdicts) {
          var i :| 0 <= i < |verdicts| && verdicts[i] && forall j :: 0 <= j < |verdicts| && j != i ==> !verdicts[j];
          assert OnlyBranch(table, value, branches, relax, i);
        }
        if i: nat :| OnlyBranch(table, value, branches, relax, i) {
          assert verdicts[i];
        }
      }
    }
  }

  /** The recursive definition accepts exactly what the node asks for. */
  lemma AcceptsIffFits(table: Table, value: Json, id: Id, relax: bool)
    requires Resolved(table) && Acyclic(table) && id in table
    ensures Accepts(table, value, id, relax) <==> FitsNode(table, value, id, relax)
  {
    hide Plain, Listed, FitsKeywords, FitsConstants, PartsAccepted, AllAccepted, OneAccepted, Acyclic, Rank, Resolved;
    PlainIffFits(value, table[id]);
    ListedIffFits(value, table[id]);
    OneIffOnly(table, value, id, relax);
    PartsIff(table, value, id, relax);
    AllIff(table, value, id, relax);
  }

  lemma PartsIff(table: Table, value: Json, id: Id, relax: bool)
    requires Resolved(table) && Acyclic(table) && id in table
    ensures var n := table[id];
            PartsAccepted(table, value, id, relax) <==>
            && (value.Object? ==> forall name :: name in value.fields && name in n.properties ==>
                  n.properties[name] in table && Accepts(table, value.fields[name], n.properties[name], relax))
            && (value.Array? && n.items.Some? ==> n.items.value in table && forall item :: item in value.items ==>
                  Accepts(table, item, n.items.value, relax))
  {
    hide Accepts, Acyclic, Rank, Resolved, Here, Below;
    AllHereDescend(table, id);
    BelowNamed(table[id]);
    var n := table[id];
    if value.Array? && n.items.Some? {
      assert (forall item :: item in value.items ==> Accepts(table, item, n.items.value, relax)) <==>
             (forall i :: 0 <= i < |value.items| ==> Accepts(table, value.items[i], n.items.value, relax));
    }
  }

  lemma AllIff(table: Table, value: Json, id: Id, relax: bool)
    requires Resolved(table) && Acyclic(table) && id in table
    ensures var n := table[id];
            AllAccepted(table, value, id, relax) <==>
            && (n.ref.Some? ==> n.ref.value in table && Accepts(table, value, n.ref.value, relax))
            && (forall m :: m in n.allOf ==> m in table && Accepts(table, value, m, relax))
  {
    hide Accepts, Acyclic, Rank, Resolved;
    AllHereDescend(table, id);
    var n := table[id];
    forall i | 0 <= i < |n.allOf| ensures n.allOf[i] in Here(n) && n.allOf[i] in table { assert n.allOf[i] in n.allOf; }
  }

  // ----- The interpreter as it runs -----

  /** Counts the branches that accepted; exactly one may. */
  method OneOf(verdicts: seq<bool>) returns (accepted: bool)
    ensures accepted <==> ExactlyOne(verdicts)
  {
    var matched := 0;
    ghost var first, second := 0, 0;
    for k := 0 to |verdicts|
      invariant matched >= 0
      invariant matched == 0 ==> forall j :: 0 <= j < k ==> !verdicts[j]
      invariant matched >= 1 ==> 0 <= first < k && verdicts[first]
      invariant matched == 1 ==> forall j :: 0 <= j < k && j != first ==> !verdicts[j]
      invariant matched >= 2 ==> first < second < k && verdicts[second]
    {
      if verdicts[k] {
        matched := matched + 1;
        if matched == 1 {
          first := k;
        } else if matched == 2 {
          second := k;
        }
      }
    }
    return matched == 1;
  }

  /** The interpreter as it runs: recursion, a loop over fields and items, and a count of branches. */
  method Validate(table: Table, value: Json, id: Id, relax: bool) returns (accepted: bool)
    requires Resolved(table) && Acyclic(table) && id in table
    ensures accepted == Accepts(table, value, id, relax)
    ensures accepted <==> FitsNode(table, value, id, relax)
    decreases value, Rank(table, id), 2
  {
    hide PartsAccepted, AllAccepted, OneAccepted, Acyclic, Rank, Resolved, FitsNode;
    AcceptsIffFits(table, value, id, relax);
    if !relax && !Listed(value, table[id]) {
      return false;
    }
    if !Plain(value, table[id]) {
      return false;
    }
    accepted := ValidateParts(table, value, id, relax);
    if !accepted {
      return;
    }
    accepted := ValidateAll(table, value, id, relax);
    if !accepted {
      return;
    }
    accepted := ValidateOne(table, value, id, relax);
  }

  lemma BelowNamed(n: Node)
    ensures forall name :: name in n.properties ==> n.properties[name] in Below(n)
    ensures n.items.Some? ==> n.items.value in Below(n)
  {
  }

  /** Known fields of an object. */
  method ValidateFields(table: Table, value: Json, id: Id, relax: bool) returns (accepted: bool)
    requires Resolved(table) && Acyclic(table) && id in table && value.Object?
    ensures accepted <==> forall name :: name in value.fields && name in table[id].properties ==>
              table[id].properties[name] in table && Accepts(table, value.fields[name], table[id].properties[name], relax)
    decreases value, Rank(table, id), 0
  {
    hide Accepts, Acyclic, Rank, Resolved, Here, Below;
    AllHereDescend(table, id);
    BelowNamed(table[id]);
    var n := table[id];
    var left := value.fields.Keys * n.properties.Keys;
    while left != {}
      invariant left <= value.fields.Keys * n.properties.Keys
      invariant forall name :: name in value.fields && name in n.properties && name !in left ==>
                  n.properties[name] in table && Accepts(table, value.fields[name], n.properties[name], relax)
      decreases |left|
    {
      var name :| name in left;
      accepted := Validate(table, value.fields[name], n.properties[name], relax);
      if !accepted {
        return;
      }
      left := left - {name};
    }
    return true;
  }

  /** Every item of an array. */
  method ValidateItems(table: Table, value: Json, id: Id, relax: bool) returns (accepted: bool)
    requires Resolved(table) && Acyclic(table) && id in table && value.Array? && table[id].items.Some?
    requires table[id].items.value in table
    ensures accepted <==> forall j :: 0 <= j < |value.items| ==> Accepts(table, value.items[j], table[id].items.value, relax)
    decreases value, Rank(table, id), 0
  {
    hide Accepts, Acyclic, Rank, Resolved;
    for i := 0 to |value.items|
      invariant forall j :: 0 <= j < i ==> Accepts(table, value.items[j], table[id].items.value, relax)
    {
      accepted := Validate(table, value.items[i], table[id].items.value, relax);
      if !accepted {
        return;
      }
    }
    return true;
  }

  method ValidateParts(table: Table, value: Json, id: Id, relax: bool) returns (accepted: bool)
    requires Resolved(table) && Acyclic(table) && id in table
    ensures accepted == PartsAccepted(table, value, id, relax)
    decreases value, Rank(table, id), 1
  {
    hide Accepts, Acyclic, Rank, Resolved, Here, Below;
    AllHereDescend(table, id);
    BelowNamed(table[id]);
    if value.Object? {
      accepted := ValidateFields(table, value, id, relax);
      return;
    }
    if value.Array? && table[id].items.Some? {
      accepted := ValidateItems(table, value, id, relax);
      return;
    }
    return true;
  }

  method ValidateAll(table: Table, value: Json, id: Id, relax: bool) returns (accepted: bool)
    requires Resolved(table) && Acyclic(table) && id in table
    ensures accepted == AllAccepted(table, value, id, relax)
    decreases value, Rank(table, id), 0
  {
    hide Accepts, Acyclic, Rank, Resolved;
    AllHereDescend(table, id);
    var n := table[id];
    if n.ref.Some? {
      accepted := Validate(table, value, n.ref.value, relax);
      if !accepted {
        return;
      }
    }
    for i := 0 to |n.allOf|
      invariant forall j :: 0 <= j < i ==> n.allOf[j] in Here(n) && Accepts(table, value, n.allOf[j], relax)
    {
      assert n.allOf[i] in Here(n);
      accepted := Validate(table, value, n.allOf[i], relax);
      if !accepted {
        return;
      }
    }
    return true;
  }

  method ValidateOne(table: Table, value: Json, id: Id, relax: bool) returns (accepted: bool)
    requires Resolved(table) && Acyclic(table) && id in table
    ensures accepted == OneAccepted(table, value, id, relax)
    decreases value, Rank(table, id), 1
  {
    hide Accepts, Acyclic, Rank, Resolved, ExactlyOne, Verdicts;
    AllHereDescend(table, id);
    var n := table[id];
    if n.oneOf.Some? {
      var branches := n.oneOf.value;
      var verdicts: seq<bool> := [];
      for i := 0 to |branches|
        invariant |verdicts| == i
        invariant forall j :: 0 <= j < i ==> verdicts[j] == Verdicts(table, value, id, branches, relax)[j]
      {
        assert branches[i] in Here(n);
        VerdictAt(table, value, id, branches, relax, i);
        var verdict := Validate(table, value, branches[i], relax);
        verdicts := verdicts + [verdict];
      }
      assert verdicts == Verdicts(table, value, id, branches, relax);
      accepted := OneOf(verdicts);
      if !accepted {
        return;
      }
    }
    if n.forbidden.Some? {
      var matched := Validate(table, value, n.forbidden.value, relax);
      return !matched;
    }
    return true;
  }

  // ----- Relaxed validation -----

  ghost predicate ClosedUnder(table: Table, ids: set<Id>) {
    ids <= table.Keys && forall id :: id in ids ==> Here(table[id]) <= ids && Below(table[id]) <= ids
  }

  /** Nodes without a constant or an enumeration anywhere below them: relaxing changes nothing there. */
  ghost predicate Neutral(table: Table, ids: set<Id>) {
    ClosedUnder(table, ids) && forall id :: id in ids ==> table[id].constant.None? && table[id].choices.None?
  }

  /** Nodes whose `oneOf` and `not` all lead to neutral nodes. */
  ghost predicate Tolerant(table: Table, ids: set<Id>, neutral: set<Id>) {
    ClosedUnder(table, ids) && Neutral(table, neutral) && forall id :: id in ids ==> Alternatives(table[id]) <= neutral
  }

  lemma {:induction false} NeutralIgnoresRelaxing(table: Table, ids: set<Id>, value: Json, id: Id)
    requires Resolved(table) && Acyclic(table) && Neutral(table, ids) && id in ids
    ensures Accepts(table, value, id, true) == Accepts(table, value, id, false)
    decreases value, Rank(table, id)
  {
    hide PartsAccepted, AllAccepted, OneAccepted, Plain, Acyclic, Resolved, Here, Below, Rank;
    AllHereDescend(table, id);
    var n := table[id];
    forall m | m in Here(n) ensures Accepts(table, value, m, true) == Accepts(table, value, m, false) {
      NeutralIgnoresRelaxing(table, ids, value, m);
    }
    SameHere(table, value, id);
    BelowNamed(n);
    if value.Object? {
      forall name | name in value.fields && name in n.properties
        ensures Accepts(table, value.fields[name], n.properties[name], true) == Accepts(table, value.fields[name], n.properties[name], false)
      {
        NeutralIgnoresRelaxing(table, ids, value.fields[name], n.properties[name]);
      }
    }
    if value.Array? && n.items.Some? {
      forall i | 0 <= i < |value.items|
        ensures Accepts(table, value.items[i], n.items.value, true) == Accepts(table, value.items[i], n.items.value, false)
      {
        NeutralIgnoresRelaxing(table, ids, value.items[i], n.items.value);
      }
    }
    SameParts(table, value, id);
  }

  lemma SameHere(table: Table, value: Json, id: Id)
    requires Resolved(table) && Acyclic(table) && id in table
    requires forall m :: m in Here(table[id]) ==> Accepts(table, value, m, true) == Accepts(table, value, m, false)
    ensures AllAccepted(table, value, id, true) == AllAccepted(table, value, id, false)
    ensures OneAccepted(table, value, id, true) == OneAccepted(table, value, id, false)
  {
    hide Accepts, OneAccepted, Acyclic, Resolved, Rank;
    AllHereDescend(table, id);
    assert Alternatives(table[id]) <= Here(table[id]);
    SameOne(table, value, id);
  }

  /** The nodes that `oneOf` and `not` go on to. */
  function Alternatives(n: Node): set<Id> {
    (if n.oneOf.Some? then set i | i in n.oneOf.value else {}) + if n.forbidden.Some? then {n.forbidden.value} else {}
  }

  lemma {:induction false} SameVerdicts(table: Table, value: Json, id: Id, branches: seq<Id>)
    requires Resolved(table) && Acyclic(table) && id in table && forall m :: m in branches ==> m in Here(table[id])
    requires forall m :: m in branches ==> m in table && Accepts(table, value, m, true) == Accepts(table, value, m, false)
    ensures Verdicts(table, value, id, branches, true) == Verdicts(table, value, id, branches, false)
  {
    hide Accepts, Acyclic, Resolved, Rank, Here;
    if branches != [] {
      assert branches[0] in branches;
      SameVerdicts(table, value, id, branches[1..]);
    }
  }

  /** Relaxing that changes no alternative changes neither `oneOf` nor `not`. */
  lemma SameOne(table: Table, value: Json, id: Id)
    requires Resolved(table) && Acyclic(table) && id in table
    requires forall m :: m in Alternatives(table[id]) ==> m in table && Accepts(table, value, m, true) == Accepts(table, value, m, false)
    ensures OneAccepted(table, value, id, true) == OneAccepted(table, value, id, false)
  {
    hide Accepts, Acyclic, Resolved, Rank, Verdicts, ExactlyOne;
    var n := table[id];
    if n.oneOf.Some? { SameVerdicts(table, value, id, n.oneOf.value); }
  }

  lemma SameParts(table: Table, value: Json, id: Id)
    requires Resolved(table) && Acyclic(table) && id in table
    requires value.Object? ==> forall name :: name in value.fields && name in table[id].properties ==>
               Accepts(table, value.fields[name], table[id].properties[name], true)
               == Accepts(table, value.fields[name], table[id].properties[name], false)
    requires value.Array? && table[id].items.Some? ==> forall i :: 0 <= i < |value.items| ==>
               Accepts(table, value.items[i], table[id].items.value, true) == Accepts(table, value.items[i], table[id].items.value, false)
    ensures PartsAccepted(table, value, id, true) == PartsAccepted(table, value, id, false)
  {
    hide Accepts;
  }

  lemma NeutralInTable(table: Table, neutral: set<Id>)
    requires Neutral(table, neutral)
    ensures neutral <= table.Keys
  {
  }

  lemma PartsImply(table: Table, value: Json, id: Id)
    requires Resolved(table) && Acyclic(table) && id in table
    requires value.Object? ==> forall name :: name in value.fields && name in table[id].properties ==>
               table[id].properties[name] in table
               && (Accepts(table, value.fields[name], table[id].properties[name], false)
                   ==> Accepts(table, value.fields[name], table[id].properties[name], true))
    requires value.Array? && table[id].items.Some? ==> table[id].items.value in table && forall i :: 0 <= i < |value.items| ==>
               (Accepts(table, value.items[i], table[id].items.value, false) ==> Accepts(table, value.items[i], table[id].items.value, true))
    ensures PartsAccepted(table, value, id, false) ==> PartsAccepted(table, value, id, true)
  {
    hide Accepts, Acyclic, Rank;
  }

  lemma AllImply(table: Table, value: Json, id: Id)
    requires Resolved(table) && Acyclic(table) && id in table
    requires forall m :: m in Here(table[id]) && m !in Alternatives(table[id]) ==>
               m in table && (Accepts(table, value, m, false) ==> Accepts(table, value, m, true))
    requires forall m :: m in Alternatives(table[id]) ==> m in table && Accepts(table, value, m, true) == Accepts(table, value, m, false)
    ensures AllAccepted(table, value, id, false) ==> AllAccepted(table, value, id, true)
  {
    hide Accepts, Acyclic, Rank, Alternatives;
  }

  /** What is accepted strictly stays accepted when relaxed, wherever `oneOf` and `not` lead only to
      neutral nodes; in particular wherever there are none. */
  lemma {:induction false} StrictImpliesRelaxed(table: Table, ids: set<Id>, neutral: set<Id>, value: Json, id: Id)
    requires Resolved(table) && Acyclic(table) && Tolerant(table, ids, neutral) && id in ids
    ensures Accepts(table, value, id, false) ==> Accepts(table, value, id, true)
    decreases value, Rank(table, id)
  {
    hide OneAccepted, AllAccepted, PartsAccepted, Plain, Acyclic, Resolved, Rank, Listed, Neutral, Here, Below, Alternatives;
    AllHereDescend(table, id);
    var n := table[id];
    BelowNamed(n);
    forall m | m in Here(n) ensures Accepts(table, value, m, false) ==> Accepts(table, value, m, true) {
      StrictImpliesRelaxed(table, ids, neutral, value, m);
    }
    forall m | m in neutral ensures m in table && Accepts(table, value, m, true) == Accepts(table, value, m, false) {
      NeutralInTable(table, neutral);
      NeutralIgnoresRelaxing(table, neutral, value, m);
    }
    SameOne(table, value, id);
    AllImply(table, value, id);
    if value.Object? {
      forall name | name in value.fields && name in n.properties
        ensures Accepts(table, value.fields[name], n.properties[name], false) ==> Accepts(table, value.fields[name], n.properties[name], true)
      {
        StrictImpliesRelaxed(table, ids, neutral, value.fields[name], n.properties[name]);
      }
    }
    if value.Array? && n.items.Some? {
      forall i | 0 <= i < |value.items|
        ensures Accepts(table, value.items[i], n.items.value, false) ==> Accepts(table, value.items[i], n.items.value, true)
      {
        StrictImpliesRelaxed(table, ids, neutral, value.items[i], n.items.value);
      }
    }
    PartsImply(table, value, id);
  }

  /** A schema without `oneOf` and `not` is read by any client that could read a stricter payload. */
  lemma WithoutAlternatives(table: Table, value: Json, id: Id)
    requires Resolved(table) && Acyclic(table) && id in table
    requires forall m :: m in table ==> table[m].oneOf.None? && table[m].forbidden.None?
    ensures Accepts(table, value, id, false) ==> Accepts(table, value, id, true)
  {
    hide Accepts, Acyclic, Rank;
    StrictImpliesRelaxed(table, table.Keys, {}, value, id);
  }

  // ----- What relaxing can reject -----

  const Anything := Node(None, None, None, None, {}, map[], false, 0, None, None, false, 0, None, None, None, None, [], None, None)

  /** Either of two constants, told apart only by their values. */
  const EitherOf: Table := map[
    0 := Anything.(oneOf := Some([1, 2])),
    1 := Anything.(constant := Some(Text("a"))),
    2 := Anything.(constant := Some(Text("b")))]

  /** Anything but one constant. */
  const AllBut: Table := map[
    0 := Anything.(forbidden := Some(1)),
    1 := Anything.(constant := Some(Text("b")))]

  lemma EitherOfEdges()
    ensures EitherOf.Keys == {0, 1, 2}
    ensures Here(EitherOf[0]) == {1, 2} && Here(EitherOf[1]) == {} && Here(EitherOf[2]) == {}
    ensures Below(EitherOf[0]) == {} && Below(EitherOf[1]) == {} && Below(EitherOf[2]) == {}
  {
  }

  lemma EitherOfIsTable()
    ensures Resolved(EitherOf) && Acyclic(EitherOf)
  {
    hide Acyclic, Here, Below;
    EitherOfEdges();
    var depth: map<Id, nat> := map[0 := 1, 1 := 0, 2 := 0];
    assert depth.Keys == EitherOf.Keys;
    assert Descends(EitherOf, depth);
    hide Descends;
    AcyclicIffNumbered(EitherOf);
  }

  lemma AllButIsTable()
    ensures Resolved(AllBut) && Acyclic(AllBut)
  {
    hide Acyclic;
    assert Here(AllBut[0]) == {1} && Here(AllBut[1]) == {};
    assert Below(AllBut[0]) == {} && Below(AllBut[1]) == {};
    hide Here, Below;
    var depth: map<Id, nat> := map[0 := 1, 1 := 0];
    assert depth.Keys == AllBut.Keys;
    assert Descends(AllBut, depth);
    hide Descends;
    AcyclicIffNumbered(AllBut);
  }

  /** A node with nothing but a constant accepts that constant, or anything when relaxed. */
  lemma ConstantAccepts(table: Table, id: Id, c: string, text: string, relax: bool)
    requires Resolved(table) && Acyclic(table) && id in table && table[id] == Anything.(constant := Some(Text(c)))
    ensures Accepts(table, Text(text), id, relax) <==> relax || text == c
  {
  }

  /** Relaxing both branches of a `oneOf` makes both match, so a valid payload is refused. */
  lemma RelaxedOneOfRefuses()
    ensures Resolved(EitherOf) && Acyclic(EitherOf)
    ensures Accepts(EitherOf, Text("a"), 0, false) && !Accepts(EitherOf, Text("a"), 0, true)
  {
    hide Acyclic, Resolved, Below, Rank;
    EitherOfIsTable();
    assert Here(EitherOf[0]) == {1, 2};
    assert "a"[0] != "b"[0];
    forall relax ensures OneAccepted(EitherOf, Text("a"), 0, relax) <==> !relax {
      ConstantAccepts(EitherOf, 1, "a", "a", relax);
      ConstantAccepts(EitherOf, 2, "b", "a", relax);
      VerdictAt(EitherOf, Text("a"), 0, [1, 2], relax, 0);
      VerdictAt(EitherOf, Text("a"), 0, [1, 2], relax, 1);
      assert Verdicts(EitherOf, Text("a"), 0, [1, 2], relax) == [true, relax];
    }
    hide OneAccepted;
  }

  /** Relaxing below a `not` makes the forbidden shape match. */
  lemma RelaxedNotRefuses()
    ensures Resolved(AllBut) && Acyclic(AllBut)
    ensures Accepts(AllBut, Text("a"), 0, false) && !Accepts(AllBut, Text("a"), 0, true)
  {
    hide Acyclic, Resolved, Here, Below, Rank;
    AllButIsTable();
    ConstantAccepts(AllBut, 1, "b", "a", true);
    ConstantAccepts(AllBut, 1, "b", "a", false);
    assert "a"[0] != "b"[0];
  }
}
