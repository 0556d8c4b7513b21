/** The canonical text behind request and binding digests: object members sorted by key at every
    level. Two values get the same text exactly when they are equal up to the order of keys. */
module CanonicalJson {
  import opened JsonText

  // ---------- key order ----------

  /** Python's order on strings: by code point, prefixes first. */
  predicate Less(a: string, b: string) {
    b != "" && (a == "" || a[0] < b[0] || (a[0] == b[0] && Less(a[1..], b[1..])))
  }

  lemma {:induction false} LessTotal(a: string, b: string)
    ensures a == b || Less(a, b) || Less(b, a)
  {
    if a != "" && b != "" && a[0] == b[0] {
      LessTotal(a[1..], b[1..]);
      assert a == [a[0]] + a[1..] && b == [b[0]] + b[1..];
    }
  }

  lemma {:induction false} LessAsymmetric(a: string, b: string)
    requires Less(a, b)
    ensures a != b && !Less(b, a)
  {
    if a != "" && a[0] == b[0] {
      LessAsymmetric(a[1..], b[1..]);
    }
  }

  lemma {:induction false} LessTransitive(a: string, b: string, c: string)
    requires Less(a, b) && Less(b, c)
    ensures Less(a, c)
  {
    if a != "" && a[0] == b[0] == c[0] {
      LessTransitive(a[1..], b[1..], c[1..]);
    }
  }

  /** One string comes before another if, after a common part of `k` characters, it ends or has the
      smaller code point. */
  predicate Before(a: string, b: string, k: nat) {
    && k <= |a| && k < |b| && a[..k] == b[..k]
    && (k < |a| ==> a[k] as int < b[k] as int)
  }

  ghost predicate ComesBefore(a: string, b: string) {
    exists k: nat :: Before(a, b, k)
  }

  lemma {:induction false} LessHasDifference(a: string, b: string) returns (k: nat)
    requires Less(a, b)
    ensures Before(a, b, k)
  {
    if a == "" || a[0] < b[0] {
      k := 0;
    } else {
      var j := LessHasDifference(a[1..], b[1..]);
      k := j + 1;
      assert a[..k] == [a[0]] + a[1..][..j] && b[..k] == [b[0]] + b[1..][..j];
    }
  }

  lemma {:induction false} DifferenceIsLess(a: string, b: string, k: nat)
    requires Before(a, b, k)
    ensures Less(a, b)
  {
    if k > 0 {
      assert a[0] == a[..k][0] && b[0] == b[..k][0];
      assert a[1..][..k - 1] == a[..k][1..] && b[1..][..k - 1] == b[..k][1..];
      DifferenceIsLess(a[1..], b[1..], k - 1);
    }
  }

  /** The order is the one by code points, with a prefix first. */
  lemma LessIffFirstDifference(a: string, b: string)
    ensures Less(a, b) <==> ComesBefore(a, b)
  {
    if Less(a, b) {
      var k := LessHasDifference(a, b);
    }
    if k: nat :| Before(a, b, k) {
      DifferenceIsLess(a, b, k);
    }
  }

  // ---------- sorting members ----------

  predicate DistinctKeys(members: seq<Member>) {
    forall i, j | 0 <= i < j < |members| :: members[i].key != members[j].key
  }

  predicate Sorted(members: seq<Member>) {
    forall i, j | 0 <= i < j < |members| :: Less(members[i].key, members[j].key)
  }

  function Insert(m: Member, sorted: seq<Member>): seq<Member> {
    if sorted == [] || !Less(sorted[0].key, m.key) then [m] + sorted
    else [sorted[0]] + Insert(m, sorted[1..])
  }

  function Sort(members: seq<Member>): seq<Member> {
    if members == [] then [] else Insert(members[0], Sort(members[1..]))
  }

  lemma {:induction false} InsertSorts(m: Member, sorted: seq<Member>)
    requires Sorted(sorted) && forall x <- sorted :: x.key != m.key
    ensures Sorted(Insert(m, sorted))
    ensures forall x :: x in Insert(m, sorted) <==> x == m || x in sorted
  {
    if sorted == [] {
    } else if !Less(sorted[0].key, m.key) {
      LessTotal(sorted[0].key, m.key);
      forall j | 0 <= j < |sorted|
        ensures Less(m.key, sorted[j].key)
      {
        if j > 0 {
          LessTransitive(m.key, sorted[0].key, sorted[j].key);
        }
      }
    } else {
      var rest := sorted[1..];
      assert forall x <- rest :: x in sorted;
      InsertSorts(m, rest);
      assert forall x :: x in sorted <==> x == sorted[0] || x in rest;
      forall x <- Insert(m, rest)
        ensures Less(sorted[0].key, x.key)
      {
      }
    }
  }

  lemma {:induction false} SortSorts(members: seq<Member>)
    requires DistinctKeys(members)
    ensures Sorted(Sort(members))
    ensures forall x :: x in Sort(members) <==> x in members
  {
    if members != [] {
      SortSorts(members[1..]);
      forall x <- Sort(members[1..])
        ensures x.key != members[0].key
      {
        assert x in members[1..];
      }
      InsertSorts(members[0], Sort(members[1..]));
      assert forall x :: x in members <==> x == members[0] || x in members[1..];
    }
  }

  /** Sorted members are determined by which members there are. */
  lemma {:induction false} SortedUnique(a: seq<Member>, b: seq<Member>)
    requires Sorted(a) && Sorted(b) && forall x :: x in a <==> x in b
    ensures a == b
  {
    NonemptyTogether(a, b);
    NonemptyTogether(b, a);
    if a != [] {
      assert a[0] in b && b[0] in a;
      HeadLeast(a, b[0]);
      HeadLeast(b, a[0]);
      if Less(a[0].key, b[0].key) {
        LessAsymmetric(a[0].key, b[0].key);
      }
      assert a[0].key == b[0].key;
      SameKeySameMember(a, a[0], b[0]);
      forall x
        ensures x in a[1..] <==> x in b[1..]
      {
        TailMembers(a, x);
        TailMembers(b, x);
      }
      SortedUnique(a[1..], b[1..]);
      assert a == [a[0]] + a[1..] && b == [b[0]] + b[1..];
    }
  }

  lemma NonemptyTogether(a: seq<Member>, b: seq<Member>)
    requires forall x <- a :: x in b
    ensures a != [] ==> b != []
  {
    if a != [] {
      assert a[0] in b;
    }
  }

  lemma HeadLeast(a: seq<Member>, x: Member)
    requires Sorted(a) && a != [] && x in a
    ensures x == a[0] || Less(a[0].key, x.key)
  {
  }

  lemma SameKeySameMember(a: seq<Member>, x: Member, y: Member)
    requires Sorted(a) && x in a && y in a && x.key == y.key
    ensures x == y
  {
    var i :| 0 <= i < |a| && a[i] == x;
    var j :| 0 <= j < |a| && a[j] == y;
    if i < j {
      LessAsymmetric(a[i].key, a[j].key);
    } else if j < i {
      LessAsymmetric(a[j].key, a[i].key);
    }
  }

  lemma TailMembers(a: seq<Member>, x: Member)
    requires Sorted(a) && a != []
    ensures x in a[1..] <==> x in a && x != a[0]
  {
    if x in a[1..] {
      var j :| 0 <= j < |a| - 1 && a[1..][j] == x;
      LessAsymmetric(a[0].key, a[j + 1].key);
    }
  }

  // ---------- normal form ----------

  /** Members sorted by key, at every level. */
  function Normal(v: Json): Json
    decreases v, 0
  {
    match v
    case Arr(items) => Arr(NormalItems(items))
    case Obj(members) => Obj(Sort(NormalMembers(members)))
    case _ => v
  }

  function NormalItems(items: seq<Json>): (r: seq<Json>)
    ensures |r| == |items|
    ensures forall i | 0 <= i < |items| :: r[i] == Normal(items[i])
    decreases items, 1
  {
    if items == [] then [] else [Normal(items[0])] + NormalItems(items[1..])
  }

  function NormalMembers(members: seq<Member>): (r: seq<Member>)
    ensures |r| == |members|
    ensures forall i | 0 <= i < |members| :: r[i] == Member(members[i].key, Normal(members[i].value))
    decreases members, 1
  {
    if members == [] then []
    else [Member(members[0].key, Normal(members[0].value))] + NormalMembers(members[1..])
  }

  /** A value a Python program can hold: keys of a dict are distinct. */
  predicate Valid(v: Json)
    decreases v
  {
    match v
    case Arr(items) => forall i <- items :: Valid(i)
    case Obj(members) => DistinctKeys(members) && forall m <- members :: Valid(m.value)
    case Float(text) => FloatText(text)
    case _ => true
  }

  lemma ValidIsWellFormed(v: Json)
    requires Valid(v)
    ensures WellFormed(v)
    decreases v
  {
  }

  lemma {:induction false} NormalIsValid(v: Json)
    requires Valid(v)
    ensures Valid(Normal(v)) && Normal(Normal(v)) == Normal(v)
    decreases v
  {
    match v
    case Arr(items) =>
      var r := NormalItems(items);
      forall k | 0 <= k < |items|
        ensures Valid(r[k]) && Normal(r[k]) == r[k]
      {
        NormalIsValid(items[k]);
      }
      assert NormalItems(r) == r;
    case Obj(members) =>
      var r := NormalMembers(members);
      SortSorts(r);
      var sorted := Sort(r);
      forall k | 0 <= k < |sorted|
        ensures Valid(sorted[k].value) && Normal(sorted[k].value) == sorted[k].value
      {
        assert sorted[k] in r;
        var i :| 0 <= i < |r| && r[i] == sorted[k];
        NormalIsValid(members[i].value);
      }
      assert NormalMembers(sorted) == sorted;
      SortedDistinct(sorted);
      SortSorts(sorted);
      SortedUnique(Sort(sorted), sorted);
    case _ =>
  }

  lemma SortedDistinct(members: seq<Member>)
    requires Sorted(members)
    ensures DistinctKeys(members)
  {
    forall i, j | 0 <= i < j < |members|
      ensures members[i].key != members[j].key
    {
      LessAsymmetric(members[i].key, members[j].key);
    }
  }

  /** At every level the keys of an object stand in the order of their code points. */
  ghost predicate InCodePointOrder(v: Json)
    decreases v
  {
    match v
    case Arr(items) => forall i <- items :: InCodePointOrder(i)
    case Obj(members) =>
      && (forall i, j | 0 <= i < j < |members| :: ComesBefore(members[i].key, members[j].key))
      && forall m <- members :: InCodePointOrder(m.value)
    case _ => true
  }

  lemma {:induction false} NormalInOrder(v: Json)
    requires Valid(v)
    ensures InCodePointOrder(Normal(v))
    decreases v
  {
    match v
    case Arr(items) =>
      var r := NormalItems(items);
      forall i | 0 <= i < |items|
        ensures InCodePointOrder(r[i])
      {
        NormalInOrder(items[i]);
      }
    case Obj(members) =>
      var r := NormalMembers(members);
      forall i | 0 <= i < |members|
        ensures InCodePointOrder(r[i].value)
      {
        NormalInOrder(members[i].value);
      }
      NormalKeysDistinct(members);
      SortSorts(r);
      KeysInOrder(Sort(r));
    case _ =>
  }

  lemma NormalKeysDistinct(members: seq<Member>)
    requires DistinctKeys(members)
    ensures DistinctKeys(NormalMembers(members))
  {
  }

  lemma KeysInOrder(members: seq<Member>)
    requires Sorted(members)
    ensures forall i, j | 0 <= i < j < |members| :: ComesBefore(members[i].key, members[j].key)
  {
    forall i, j | 0 <= i < j < |members|
      ensures ComesBefore(members[i].key, members[j].key)
    {
      LessIffFirstDifference(members[i].key, members[j].key);
    }
  }

  // ---------- equality of values ----------

  function Keys(members: seq<Member>): set<string> {
    set m | m in members :: m.key
  }

  /** Python's `==` on JSON values: lists in order, dicts as mappings. (Numbers that Python
      counts as equal across types, such as 1 and 1.0, print differently and are kept apart.) */
  ghost predicate Same(a: Json, b: Json)
    decreases a
  {
    match a
    case Arr(items) =>
      && b.Arr? && |items| == |b.items|
      && forall i | 0 <= i < |items| :: Same(items[i], b.items[i])
    case Obj(members) =>
      && b.Obj? && Keys(members) == Keys(b.members)
      && forall m, n | m in members && n in b.members && m.key == n.key :: Same(m.value, n.value)
    case _ => a == b
  }

  lemma {:induction false} SameIffNormalEqual(a: Json, b: Json)
    requires Valid(a) && Valid(b)
    ensures Same(a, b) <==> Normal(a) == Normal(b)
    decreases a
  {
    if a.Arr? && b.Arr? && |a.items| == |b.items| {
      forall i | 0 <= i < |a.items|
        ensures Same(a.items[i], b.items[i]) <==> Normal(a.items[i]) == Normal(b.items[i])
      {
        SameIffNormalEqual(a.items[i], b.items[i]);
      }
      SameArrays(a.items, b.items);
    } else if a.Obj? && b.Obj? {
      forall m, n | m in a.members && n in b.members
        ensures Same(m.value, n.value) <==> Normal(m.value) == Normal(n.value)
      {
        SameIffNormalEqual(m.value, n.value);
      }
      SameObjects(a.members, b.members);
    }
  }

  lemma SameArrays(a: seq<Json>, b: seq<Json>)
    requires |a| == |b|
    requires forall i | 0 <= i < |a| :: Same(a[i], b[i]) <==> Normal(a[i]) == Normal(b[i])
    ensures (forall i | 0 <= i < |a| :: Same(a[i], b[i])) <==> NormalItems(a) == NormalItems(b)
  {
  }

  function NormalOf(m: Member): Member {
    Member(m.key, Normal(m.value))
  }

  /** Every member of one has a member of the other with the same key and an equal value. */
  ghost predicate Covers(from: seq<Member>, to: seq<Member>) {
    forall m <- from :: exists n <- to :: NormalOf(n) == NormalOf(m)
  }

  lemma InNormal(members: seq<Member>, m: Member)
    requires m in members
    ensures NormalOf(m) in NormalMembers(members)
  {
  }

  lemma FromNormal(members: seq<Member>, x: Member) returns (m: Member)
    requires x in NormalMembers(members)
    ensures m in members && NormalOf(m) == x
  {
    var i :| 0 <= i < |members| && NormalMembers(members)[i] == x;
    m := members[i];
  }

  lemma CoversNormal(from: seq<Member>, to: seq<Member>)
    requires Covers(from, to)
    ensures forall x <- NormalMembers(from) :: x in NormalMembers(to)
  {
    forall x <- NormalMembers(from)
      ensures x in NormalMembers(to)
    {
      var m := FromNormal(from, x);
      var n :| n in to && NormalOf(n) == NormalOf(m);
      InNormal(to, n);
    }
  }

  lemma NormalCovers(from: seq<Member>, to: seq<Member>)
    requires forall x <- NormalMembers(from) :: x in NormalMembers(to)
    ensures Covers(from, to)
  {
    forall m <- from
      ensures exists n <- to :: NormalOf(n) == NormalOf(m)
    {
      InNormal(from, m);
      var n := FromNormal(to, NormalOf(m));
    }
  }

  /** On the members of these two objects, the induction hypothesis. */
  ghost predicate Agreed(a: seq<Member>, b: seq<Member>) {
    forall m, n | m in a && n in b :: Same(m.value, n.value) <==> Normal(m.value) == Normal(n.value)
  }

  lemma SameObjects(a: seq<Member>, b: seq<Member>)
    requires DistinctKeys(a) && DistinctKeys(b) && Agreed(a, b)
    ensures Same(Obj(a), Obj(b)) <==> Sort(NormalMembers(a)) == Sort(NormalMembers(b))
  {
    if Same(Obj(a), Obj(b)) {
      SameCovers(a, b);
      CoversSort(a, b);
    }
    if Sort(NormalMembers(a)) == Sort(NormalMembers(b)) {
      SortCovers(a, b);
      CoversSame(a, b);
    }
  }

  lemma CoversSort(a: seq<Member>, b: seq<Member>)
    requires DistinctKeys(a) && DistinctKeys(b) && Covers(a, b) && Covers(b, a)
    ensures Sort(NormalMembers(a)) == Sort(NormalMembers(b))
  {
    SortSorts(NormalMembers(a));
    SortSorts(NormalMembers(b));
    CoversNormal(a, b);
    CoversNormal(b, a);
    SortedUnique(Sort(NormalMembers(a)), Sort(NormalMembers(b)));
  }

  lemma SortCovers(a: seq<Member>, b: seq<Member>)
    requires DistinctKeys(a) && DistinctKeys(b) && Sort(NormalMembers(a)) == Sort(NormalMembers(b))
    ensures Covers(a, b) && Covers(b, a)
  {
    SortSorts(NormalMembers(a));
    SortSorts(NormalMembers(b));
    NormalCovers(a, b);
    NormalCovers(b, a);
  }

  lemma CoversKeys(from: seq<Member>, to: seq<Member>)
    requires Covers(from, to)
    ensures Keys(from) <= Keys(to)
  {
  }

  lemma CoveredValues(a: seq<Member>, b: seq<Member>)
    requires DistinctKeys(b) && Agreed(a, b) && Covers(a, b)
    ensures forall m, n | m in a && n in b && m.key == n.key :: Same(m.value, n.value)
  {
  }

  lemma CoversSame(a: seq<Member>, b: seq<Member>)
    requires DistinctKeys(b) && Agreed(a, b) && Covers(a, b) && Covers(b, a)
    ensures Same(Obj(a), Obj(b))
  {
    CoversKeys(a, b);
    CoversKeys(b, a);
    CoveredValues(a, b);
  }

  lemma KeysCover(from: seq<Member>, to: seq<Member>)
    requires Keys(from) <= Keys(to)
    requires forall m, n | m in from && n in to && m.key == n.key :: Normal(m.value) == Normal(n.value)
    ensures Covers(from, to)
  {
    forall m <- from
      ensures exists n <- to :: NormalOf(n) == NormalOf(m)
    {
      assert m.key in Keys(from);
      var n :| n in to && n.key == m.key;
    }
  }

  lemma SameCovers(a: seq<Member>, b: seq<Member>)
    requires Agreed(a, b) && Same(Obj(a), Obj(b))
    ensures Covers(a, b) && Covers(b, a)
  {
    KeysCover(a, b);
    KeysCover(b, a);
  }

  // ---------- the text ----------

  /** `json.dumps` with sorted keys. The digests use no gap; stored bindings use one space. */
  function Dumps(v: Json, gap: string): string {
    Print(Normal(v), gap)
  }

  datatype Loaded = Refused | Value(v: Json)

  /** `json.loads`: one value and nothing but spaces after it. */
  function Loads(text: string): Loaded {
    var p := ParseValue(Skip(text));
    if p.Done? && Skip(p.rest) == "" then Value(p.value) else Refused
  }

  /** Reading the text back gives the value, with its members in order. */
  lemma LoadsDumps(v: Json, gap: string)
    requires Valid(v) && Gap(gap)
    ensures Loads(Dumps(v, gap)) == Value(Normal(v))
    ensures Same(v, Normal(v))
  {
    NormalIsValid(v);
    ValidIsWellFormed(Normal(v));
    var text := Dumps(v, gap);
    PrintHead(Normal(v), gap);
    ParsePrinted(Normal(v), gap, "");
    assert text + "" == text;
    SameIffNormalEqual(v, Normal(v));
  }

  /** The text identifies the value: two values have the same text if and only if they are
      equal, so it does not depend on the order in which members were inserted. */
  lemma TextIdentifiesValue(a: Json, b: Json, gap: string)
    requires Valid(a) && Valid(b) && Gap(gap)
    ensures Dumps(a, gap) == Dumps(b, gap) <==> Same(a, b)
  {
    SameIffNormalEqual(a, b);
    LoadsDumps(a, gap);
    LoadsDumps(b, gap);
  }

  /** `canonical_json_digest`, for any hash of texts. */
  function Digest<D>(hash: string -> D, v: Json): D {
    hash(Dumps(v, ""))
  }

  /** Two digests agree exactly if the values are equal, or if the hash collides on the two
      canonical texts of these very values. */
  lemma DigestsIdentifyUpToCollision<D>(hash: string -> D, a: Json, b: Json)
    requires Valid(a) && Valid(b)
    ensures Same(a, b) ==> Digest(hash, a) == Digest(hash, b)
    ensures Digest(hash, a) == Digest(hash, b) ==>
              || Same(a, b)
              || (Dumps(a, "") != Dumps(b, "") && hash(Dumps(a, "")) == hash(Dumps(b, "")))
  {
    TextIdentifiesValue(a, b, "");
  }

  // ---------- samples of the text ----------

  /** JSON's own words and brackets. */
  lemma WordsSample()
    ensures Dumps(Arr([Null, Bool(true), Bool(false)]), "") == "[null,true,false]"
    ensures Dumps(Arr([]), " ") == "[]" && Dumps(Obj([]), " ") == "{}"
  {
    var words := [Null, Bool(true), Bool(false)];
    ThreeItems(Null, Bool(true), Bool(false), "");
    assert NormalItems(words) == words;
  }

  lemma ThreeItems(a: Json, b: Json, c: Json, gap: string)
    ensures PrintItems([a, b, c], gap)
         == Print(a, gap) + "," + gap + (Print(b, gap) + "," + gap + Print(c, gap))
  {
    assert [a, b, c][1..] == [b, c] && [b, c][1..] == [c];
    assert PrintItems([b, c], gap) == Print(b, gap) + "," + gap + PrintItems([c], gap);
  }

  lemma SortTwo(a: Member, b: Member)
    requires Less(a.key, b.key)
    ensures Sort([b, a]) == [a, b]
  {
    assert [b, a][1..] == [a] && [a][1..] == [] && Sort([a]) == [a];
    assert Insert(b, [a]) == [a] + Insert(b, []);
  }

  lemma TwoMembers(a: Member, b: Member, gap: string)
    ensures PrintMembers([a, b], gap)
         == Quoted(a.key) + ":" + gap + Print(a.value, gap) + "," + gap
            + (Quoted(b.key) + ":" + gap + Print(b.value, gap))
  {
    assert [a, b][1..] == [b];
  }

  /** Keys in order whatever the order of insertion, and the gap after every comma and colon: none
      in the text that is hashed, one space in the text that is stored. */
  lemma ObjectSample(gap: string)
    ensures Dumps(Obj([Member("b", Bool(true)), Member("a", Str("x"))]), gap)
         == "{" + ("\"a\"" + ":" + gap + "\"x\"" + "," + gap + ("\"b\"" + ":" + gap + "true")) + "}"
  {
    var b, a := Member("b", Bool(true)), Member("a", Str("x"));
    assert [b, a][1..] == [a] && NormalMembers([b, a]) == [b, a];
    SortTwo(a, b);
    TwoMembers(a, b, gap);
    assert Quoted("a") == "\"a\"" && Quoted("b") == "\"b\"" && Quoted("x") == "\"x\"";
  }

  /** What is hashed is the text without any space. */
  lemma DigestSample<D>(hash: string -> D)
    ensures Digest(hash, Obj([Member("b", Bool(true)), Member("a", Str("x"))]))
         == hash("{" + ("\"a\"" + ":" + "\"x\"" + "," + ("\"b\"" + ":" + "true")) + "}")
  {
    ObjectSample("");
    assert "\"a\"" + ":" + "" == "\"a\"" + ":" && "\"b\"" + ":" + "" == "\"b\"" + ":";
    assert "\"a\"" + ":" + "\"x\"" + "," + "" == "\"a\"" + ":" + "\"x\"" + ",";
  }
}
