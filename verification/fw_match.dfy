/** Recognising a car by its firmware versions (selfdrive/car/fw_versions.py). */
module FwMatch {
  import opened Helpers

  datatype Car = Car(name: string)

  datatype Ecu = Engine | Eps | Abs | FwdRadar | FwdCamera | Vsa | Debug | OtherEcu(number: nat)

  datatype Address = Address(address: nat, sub: Option<nat>)

  /** A key of the database: the kind of the control unit and where it answers. */
  datatype EcuKey = EcuKey(ecu: Ecu, at: Address)

  type Version = seq<int>

  /** `FW_VERSIONS`: for each car and each of its control units the known versions. */
  type Database = map<Car, map<EcuKey, seq<Version>>>

  /** The versions a car answers with. */
  type Live = map<Address, set<Version>>

  type Brand = string

  predicate IsBrand(brand: Brand, filter: Option<Brand>) {
    filter.None? || brand == filter.value
  }

  function Get<K, V>(m: map<K, seq<V>>, k: K): seq<V> {
    if k in m then m[k] else []
  }

  // ---------------------------------------------------------------------------------------------
  // The answers

  /** One answer, as it is recorded. */
  datatype Fw = Fw(brand: Brand, logging: bool, address: nat, subAddress: nat, version: Version)

  function AddressOf(fw: Fw): Address {
    Address(fw.address, if fw.subAddress != 0 then Some(fw.subAddress) else None)
  }

  /** The answer counts: it is of the brand asked for, if any, and was not only asked for to be logged. */
  predicate Used(fw: Fw, filter: Option<Brand>) { (filter.Some? ==> fw.brand == filter.value) && !fw.logging }

  /** The answer came from this address; a sub-address of zero stands for none. */
  predicate CameFrom(fw: Fw, a: Address) {
    && a.address == fw.address && (a.sub.None? <==> fw.subAddress == 0) && (a.sub.Some? ==> a.sub.value == fw.subAddress)
  }

  /** `build_fw_dict`: exactly the versions of the answers that are used, each at its address. */
  method BuildFwDict(fws: seq<Fw>, filter: Option<Brand>) returns (live: Live)
    ensures forall a :: a in live <==> exists k :: 0 <= k < |fws| && Used(fws[k], filter) && CameFrom(fws[k], a)
    ensures forall a, v :: a in live ==>
      (v in live[a] <==> exists k :: 0 <= k < |fws| && Used(fws[k], filter) && CameFrom(fws[k], a) && fws[k].version == v)
  {
    live := map[];
    for n := 0 to |fws|
      invariant forall a :: a in live <==> exists k :: 0 <= k < n && Used(fws[k], filter) && CameFrom(fws[k], a)
      invariant forall a, v :: a in live ==>
        (v in live[a] <==> exists k :: 0 <= k < n && Used(fws[k], filter) && CameFrom(fws[k], a) && fws[k].version == v)
    {
      if IsBrand(fws[n].brand, filter) && !fws[n].logging {
        var a := AddressOf(fws[n]);
        live := live[a := (if a in live then live[a] else {}) + {fws[n].version}];
      }
    }
  }

  // ---------------------------------------------------------------------------------------------
  // The fuzzy match: what identifies a car

  /** The database, the brand of each car, and what to leave out. */
  datatype Setup = Setup(db: Database, brandOf: Car -> Brand, filter: Option<Brand>, exclude: Option<Car>)

  predicate FuzzyExcluded(ecu: Ecu) { ecu in {FwdCamera, FwdRadar, Eps, Debug} }

  predicate Allowed(s: Setup, car: Car) {
    (s.filter.Some? ==> s.brandOf(car) == s.filter.value) && s.exclude != Some(car)
  }

  /** One place in the database where a version stands. */
  datatype Occurrence = Occurrence(car: Car, key: EcuKey, index: nat, version: Version)

  predicate OccursAt(s: Setup, car: Car, key: EcuKey, o: Occurrence) {
    && o.car == car && o.key == key && car in s.db && key in s.db[car] && key.ecu !in {FwdCamera, FwdRadar, Eps, Debug}
    && o.index < |s.db[car][key]| && o.version == s.db[car][key][o.index]
  }

  predicate Occurs(s: Setup, o: Occurrence) {
    Allowed(s, o.car) && OccursAt(s, o.car, o.key, o)
  }

  /** An address and a version it answers with. */
  datatype Pair = Pair(at: Address, version: Version)

  function PairOf(o: Occurrence): Pair { Pair(o.key.at, o.version) }

  /** The pair stands in exactly one place of the database, and that is an entry of the car. */
  ghost predicate Identifies(s: Setup, p: Pair, car: Car) {
    exists o :: Occurs(s, o) && PairOf(o) == p && o.car == car && OnlyPlace(s, p, o)
  }

  ghost predicate OnlyPlace(s: Setup, p: Pair, o: Occurrence) {
    forall other :: Occurs(s, other) && PairOf(other) == p ==> other == o
  }

  // ---------------------------------------------------------------------------------------------
  // The lookup table

  type Lookup = map<Pair, seq<Car>>

  /** The cars of a list of occurrences that stand for a pair. */
  function CarsOf(entries: seq<Occurrence>, p: Pair): (cars: seq<Car>) {
    if entries == [] then []
    else
      var n := |entries| - 1;
      CarsOf(entries[..n], p) + if PairOf(entries[n]) == p then [entries[n].car] else []
  }

  /** The table lists, for every pair, the cars of the given occurrences. */
  ghost predicate Lists(lookup: Lookup, entries: seq<Occurrence>) {
    forall p :: Get(lookup, p) == CarsOf(entries, p)
  }

  ghost predicate Distinct(entries: seq<Occurrence>) {
    forall i, j :: 0 <= i < j < |entries| ==> entries[i] != entries[j]
  }

  lemma CarsOfNext(entries: seq<Occurrence>, o: Occurrence, p: Pair)
    ensures CarsOf(entries + [o], p) == if PairOf(o) == p then CarsOf(entries, p) + [o.car] else CarsOf(entries, p)
  {
    assert (entries + [o])[..|entries|] == entries;
  }

  lemma ListsNext(lookup: Lookup, entries: seq<Occurrence>, o: Occurrence)
    requires Lists(lookup, entries) && Distinct(entries) && o !in entries
    ensures Lists(lookup[PairOf(o) := Get(lookup, PairOf(o)) + [o.car]], entries + [o]) && Distinct(entries + [o])
    ensures forall q :: q in entries + [o] <==> q in entries || q == o
  {
    var table := lookup[PairOf(o) := Get(lookup, PairOf(o)) + [o.car]];
    forall p
      ensures Get(table, p) == CarsOf(entries + [o], p)
    {
      CarsOfNext(entries, o, p);
    }
  }

  /** The innermost loop: the versions of one control unit of one car. */
  method AddVersions(s: Setup, car: Car, key: EcuKey, before: Lookup, ghost entries: seq<Occurrence>)
    returns (lookup: Lookup, ghost all: seq<Occurrence>)
    requires car in s.db && key in s.db[car] && !FuzzyExcluded(key.ecu)
    requires Lists(before, entries) && Distinct(entries)
    requires forall o :: o in entries ==> !(o.car == car && o.key == key)
    ensures Lists(lookup, all) && Distinct(all)
    ensures forall o :: o in all <==> o in entries || OccursAt(s, car, key, o)
  {
    lookup, all := before, entries;
    var versions := s.db[car][key];
    for i := 0 to |versions|
      invariant Lists(lookup, all) && Distinct(all)
      invariant forall o :: o in all <==> o in entries || (OccursAt(s, car, key, o) && o.index < i)
    {
      var p := Pair(key.at, versions[i]);
      ghost var o := Occurrence(car, key, i, versions[i]);
      ListsNext(lookup, all, o);
      lookup := lookup[p := Get(lookup, p) + [car]];
      all := all + [o];
    }
  }

  /** The control units of one car. */
  method AddCar(s: Setup, car: Car, before: Lookup, ghost entries: seq<Occurrence>)
    returns (lookup: Lookup, ghost all: seq<Occurrence>)
    requires car in s.db
    requires Lists(before, entries) && Distinct(entries)
    requires forall o :: o in entries ==> o.car != car
    ensures Lists(lookup, all) && Distinct(all)
    ensures forall o :: o in all <==> o in entries || OccursAt(s, car, o.key, o)
  {
    lookup, all := before, entries;
    var todo := s.db[car].Keys;
    while exists key :: key in todo
      invariant todo <= s.db[car].Keys
      invariant Lists(lookup, all) && Distinct(all)
      invariant forall o :: o in all <==> o in entries || (OccursAt(s, car, o.key, o) && o.key !in todo)
      decreases todo
    {
      var key :| key in todo;
      if !FuzzyExcluded(key.ecu) {
        lookup, all := AddVersions(s, car, key, lookup, all);
      }
      todo := todo - {key};
    }
  }

  /** The lookup table, whatever the order in which cars and control units are visited. */
  method BuildLookup(s: Setup) returns (lookup: Lookup, ghost all: seq<Occurrence>)
    ensures Lists(lookup, all) && Distinct(all)
    ensures forall o :: o in all <==> Occurs(s, o)
  {
    lookup, all := map[], [];
    var todo := s.db.Keys;
    while exists car :: car in todo
      invariant todo <= s.db.Keys
      invariant Lists(lookup, all) && Distinct(all)
      invariant forall o :: o in all <==> Occurs(s, o) && o.car !in todo
      decreases todo
    {
      var car :| car in todo;
      if IsBrand(s.brandOf(car), s.filter) && s.exclude != Some(car) {
        lookup, all := AddCar(s, car, lookup, all);
      }
      todo := todo - {car};
    }
  }

  // ---------------------------------------------------------------------------------------------
  // One candidate means one place

  lemma {:induction false} CarsOfLength(entries: seq<Occurrence>, p: Pair, i: nat)
    requires i < |entries| && PairOf(entries[i]) == p
    ensures CarsOf(entries, p) != []
    ensures |CarsOf(entries, p)| == 1 ==> CarsOf(entries, p) == [entries[i].car]
    ensures |CarsOf(entries, p)| == 1 ==> forall j :: 0 <= j < |entries| && j != i ==> PairOf(entries[j]) != p
  {
    var n := |entries| - 1;
    if i < n {
      CarsOfLength(entries[..n], p, i);
    } else {
      forall j | 0 <= j < n && PairOf(entries[j]) == p
        ensures |CarsOf(entries, p)| > 1
      {
        CarsOfLength(entries[..n], p, j);
      }
    }
  }

  lemma {:induction false} CarsOfSome(entries: seq<Occurrence>, p: Pair) returns (i: nat)
    requires CarsOf(entries, p) != []
    ensures i < |entries| && PairOf(entries[i]) == p
  {
    i := |entries| - 1;
    if PairOf(entries[i]) != p {
      i := CarsOfSome(entries[..i], p);
    }
  }

  lemma {:induction false} CarsOfOne(entries: seq<Occurrence>, p: Pair, i: nat)
    requires i < |entries| && PairOf(entries[i]) == p
    requires forall j :: 0 <= j < |entries| && j != i ==> PairOf(entries[j]) != p
    ensures CarsOf(entries, p) == [entries[i].car]
  {
    var n := |entries| - 1;
    if i < n {
      CarsOfOne(entries[..n], p, i);
    } else if CarsOf(entries[..n], p) != [] {
      var j := CarsOfSome(entries[..n], p);
      assert false;
    }
  }

  /** The table holds a single car for a pair exactly when the pair identifies that car. A pair that stands twice for the same
      car does not. */
  lemma SingleCandidate(s: Setup, lookup: Lookup, entries: seq<Occurrence>, p: Pair, car: Car)
    requires Lists(lookup, entries) && Distinct(entries)
    requires forall o :: o in entries <==> Occurs(s, o)
    ensures Get(lookup, p) == [car] <==> Identifies(s, p, car)
  {
    if Get(lookup, p) == [car] {
      var i := CarsOfSome(entries, p);
      CarsOfLength(entries, p, i);
      assert entries[i] in entries;
      assert OnlyPlace(s, p, entries[i]);
    } else if Identifies(s, p, car) {
      var o :| Occurs(s, o) && PairOf(o) == p && o.car == car && OnlyPlace(s, p, o);
      assert o in entries;
      var i :| 0 <= i < |entries| && entries[i] == o;
      forall j | 0 <= j < |entries| && j != i
        ensures PairOf(entries[j]) != p
      {
        assert entries[j] in entries;
      }
      CarsOfOne(entries, p, i);
    }
  }

  /** All places where the pair stands are entries of the car. */
  ghost predicate BelongsTo(s: Setup, p: Pair, car: Car) {
    && (forall o :: Occurs(s, o) && PairOf(o) == p ==> o.car == car)
    && exists o :: Occurs(s, o) && PairOf(o) == p
  }

  ghost predicate StandsTwice(s: Setup, p: Pair) {
    exists o, q :: Occurs(s, o) && Occurs(s, q) && PairOf(o) == p == PairOf(q) && o != q
  }

  /** A pair that belongs to one car only identifies it exactly when it stands once: two control units of a car at one address
      with the same version hide each other. */
  lemma IdentifiesExactlyWhen(s: Setup, p: Pair, car: Car)
    requires BelongsTo(s, p, car)
    ensures Identifies(s, p, car) <==> !StandsTwice(s, p)
  {
    var o :| Occurs(s, o) && PairOf(o) == p;
    if !StandsTwice(s, p) {
      assert OnlyPlace(s, p, o);
    }
  }

  /** A car with two control units at one address that answer with the same version: the version belongs to no other car and
      yet does not identify it. */
  lemma SameVersionTwice(s: Setup, car: Car, one: EcuKey, two: EcuKey, v: Version)
    requires s.db.Keys == {car} && Allowed(s, car) && one != two && one.at == two.at
    requires StandsAt(s, car, one, v) && StandsAt(s, car, two, v)
    ensures BelongsTo(s, Pair(one.at, v), car) && !Identifies(s, Pair(one.at, v), car)
  {
    var p := Pair(one.at, v);
    var o := Place(s, car, one, v);
    var q := Place(s, car, two, v);
    OnlyCar(s, car);
    TwoPlaces(s, p, car, o, q);
  }

  lemma TwoPlaces(s: Setup, p: Pair, car: Car, o: Occurrence, q: Occurrence)
    requires forall r :: Occurs(s, r) ==> r.car == car
    requires Occurs(s, o) && PairOf(o) == p && Occurs(s, q) && PairOf(q) == p && o != q
    ensures BelongsTo(s, p, car) && !Identifies(s, p, car)
  {
    NoOnlyPlace(s, p, car, o, q);
  }

  lemma NoOnlyPlace(s: Setup, p: Pair, car: Car, o: Occurrence, q: Occurrence)
    requires Occurs(s, o) && PairOf(o) == p && Occurs(s, q) && PairOf(q) == p && o != q
    ensures !Identifies(s, p, car)
  {
    forall r | Occurs(s, r) && PairOf(r) == p
      ensures !OnlyPlace(s, p, r)
    {
      assert r != o || r != q;
    }
  }

  lemma Place(s: Setup, car: Car, key: EcuKey, v: Version) returns (o: Occurrence)
    requires Allowed(s, car) && StandsAt(s, car, key, v)
    ensures Occurs(s, o) && PairOf(o) == Pair(key.at, v) && o.key == key
  {
    o := Occurrence(car, key, 0, v);
  }

  lemma OnlyCar(s: Setup, car: Car)
    requires s.db.Keys == {car}
    ensures forall r :: Occurs(s, r) ==> r.car == car
  {
    forall r | Occurs(s, r)
      ensures r.car == car
    {
      assert r.car in s.db.Keys;
    }
  }

  predicate StandsAt(s: Setup, car: Car, key: EcuKey, v: Version) {
    car in s.db && key in s.db[car] && !FuzzyExcluded(key.ecu) && s.db[car][key] == [v]
  }

  lemma HiddenByItself() returns (s: Setup, p: Pair, car: Car)
    ensures BelongsTo(s, p, car) && !Identifies(s, p, car)
  {
    car := Car("A");
    var at, v: Version := Address(0x7e0, None), [1];
    var one, two := EcuKey(Engine, at), EcuKey(Abs, at);
    s := Setup(map[car := map[one := [v], two := [v]]], (c: Car) => "brand", None, None);
    p := Pair(at, v);
    assert s.db[car] == map[one := [v], two := [v]];
    assert one != two;
    SameVersionTwice(s, car, one, two, v);
  }

  // ---------------------------------------------------------------------------------------------
  // The fuzzy match: the result

  /** The addresses at which a live version identifies some car. */
  ghost predicate Speaks(s: Setup, live: Live, at: Address, v: Version, car: Car) {
    at in live && v in live[at] && Identifies(s, Pair(at, v), car)
  }

  /** All that identify a car name this one, and at least two addresses do. */
  ghost predicate IsFuzzyMatch(s: Setup, live: Live, car: Car) {
    && (forall at, v, c :: Speaks(s, live, at, v, c) ==> c == car)
    && exists a, v, b, w :: a != b && Speaks(s, live, a, v, car) && Speaks(s, live, b, w, car)
  }

  /** Two live versions identify different cars. */
  ghost predicate Torn(s: Setup, live: Live) {
    exists a, v, c, b, w, d :: Speaks(s, live, a, v, c) && Speaks(s, live, b, w, d) && c != d
  }

  /** What is known of the versions at an address that were looked at. */
  ghost predicate Covers(s: Setup, live: Live, at: Address, todo: set<Version>, matched: set<Address>, found: Option<Car>) {
    forall v, c :: v !in todo && Speaks(s, live, at, v, c) ==> found == Some(c) && at in matched
  }

  ghost predicate Grounded(s: Setup, live: Live, matched: set<Address>, found: Option<Car>) {
    && (forall a :: a in matched ==> found.Some? && exists v :: Speaks(s, live, a, v, found.value))
    && (found.Some? ==> exists a :: a in matched)
  }

  lemma TwoElements(s: set<Address>)
    ensures |s| >= 2 ==> exists a, b :: a in s && b in s && a != b
  {
    if |s| >= 2 {
      var a :| a in s;
      assert |s - {a}| == |s| - 1;
      var b :| b in s - {a};
    }
  }

  lemma AtLeastTwo(s: set<Address>, a: Address, b: Address)
    requires a in s && b in s && a != b
    ensures |s| >= 2
  {
    assert |s - {a} - {b}| == |s| - 2;
  }

  lemma TornIsNoMatch(s: Setup, live: Live, car: Car)
    requires Torn(s, live)
    ensures !IsFuzzyMatch(s, live, car)
  {
    var a, v, c, b, w, d :| Speaks(s, live, a, v, c) && Speaks(s, live, b, w, d) && c != d;
  }

  function Single(candidates: seq<Car>): Option<Car> {
    if |candidates| == 1 then Some(candidates[0]) else None
  }

  lemma SpeaksExactly(s: Setup, live: Live, lookup: Lookup, entries: seq<Occurrence>, at: Address, v: Version)
    requires Lists(lookup, entries) && Distinct(entries) && forall o :: o in entries <==> Occurs(s, o)
    requires at in live && v in live[at]
    ensures forall c :: Speaks(s, live, at, v, c) <==> Single(Get(lookup, Pair(at, v))) == Some(c)
  {
    var candidates := Get(lookup, Pair(at, v));
    forall c
      ensures Speaks(s, live, at, v, c) <==> Single(candidates) == Some(c)
    {
      SingleCandidate(s, lookup, entries, Pair(at, v), c);
      assert |candidates| == 1 ==> candidates == [candidates[0]];
    }
  }

  /** A version that names no other car than those before. */
  lemma NextVersion(s: Setup, live: Live, at: Address, todo: set<Version>, matched: set<Address>, found: Option<Car>,
                    v: Version, c: Option<Car>)
    requires Covers(s, live, at, todo, matched, found) && Grounded(s, live, matched, found)
    requires forall d :: Speaks(s, live, at, v, d) <==> c == Some(d)
    requires c.Some? && found.Some? ==> found == c
    ensures var (m, f) := if c.Some? then (matched + {at}, c) else (matched, found);
      Covers(s, live, at, todo - {v}, m, f) && Grounded(s, live, m, f)
  {
    var (m, f) := if c.Some? then (matched + {at}, c) else (matched, found);
    if c.Some? {
      assert Speaks(s, live, at, v, c.value);
      assert at in m;
    }
    forall w, d | w !in todo - {v} && Speaks(s, live, at, w, d)
      ensures f == Some(d) && at in m
    {
      assert w == v || w !in todo;
    }
  }

  lemma TwoCars(s: Setup, live: Live, matched: set<Address>, found: Option<Car>, at: Address, v: Version, c: Car)
    requires Grounded(s, live, matched, found) && Speaks(s, live, at, v, c) && found.Some? && found.value != c
    ensures Torn(s, live)
  {
    var a :| a in matched;
    var w :| Speaks(s, live, a, w, found.value);
  }

  /** The versions of one address. */
  method MatchAddress(s: Setup, live: Live, lookup: Lookup, ghost entries: seq<Occurrence>, at: Address,
                      matched: set<Address>, found: Option<Car>)
    returns (matched': set<Address>, found': Option<Car>, torn: bool)
    requires Lists(lookup, entries) && Distinct(entries) && forall o :: o in entries <==> Occurs(s, o)
    requires at in live && Grounded(s, live, matched, found)
    ensures torn ==> Torn(s, live)
    ensures !torn ==> matched <= matched' && (found.Some? ==> found' == found)
    ensures !torn ==> Grounded(s, live, matched', found') && Covers(s, live, at, {}, matched', found')
  {
    matched', found', torn := matched, found, false;
    var todo := live[at];
    while exists v :: v in todo
      invariant todo <= live[at] && matched <= matched' && (found.Some? ==> found' == found)
      invariant Grounded(s, live, matched', found') && Covers(s, live, at, todo, matched', found')
      decreases todo
    {
      var v :| v in todo;
      var candidates := Get(lookup, Pair(at, v));
      SpeaksExactly(s, live, lookup, entries, at, v);
      if |candidates| == 1 && found'.Some? && found'.value != candidates[0] {
        TwoCars(s, live, matched', found', at, v, candidates[0]);
        torn := true;
        return;
      }
      NextVersion(s, live, at, todo, matched', found', v, Single(candidates));
      if |candidates| == 1 {
        matched' := matched' + {at};
        found' := Some(candidates[0]);
      }
      todo := todo - {v};
    }
  }

  /** `match_fw_to_car_fuzzy`: the car that all identifying versions name, if at least two addresses name it, and nothing
      otherwise; whatever the order in which the versions are visited. */
  method MatchFuzzy(s: Setup, live: Live) returns (cars: set<Car>)
    ensures cars == {} || exists car :: cars == {car}
    ensures forall car :: cars == {car} <==> IsFuzzyMatch(s, live, car)
  {
    var lookup: Lookup;
    ghost var entries: seq<Occurrence>;
    lookup, entries := BuildLookup(s);
    var matched: set<Address> := {};
    var found: Option<Car> := None;
    var todo := live.Keys;
    while exists at :: at in todo
      invariant todo <= live.Keys && Grounded(s, live, matched, found)
      invariant forall at :: at in live && at !in todo ==> Covers(s, live, at, {}, matched, found)
      decreases todo
    {
      var at :| at in todo;
      var torn;
      matched, found, torn := MatchAddress(s, live, lookup, entries, at, matched, found);
      if torn {
        forall car
          ensures !IsFuzzyMatch(s, live, car)
        {
          TornIsNoMatch(s, live, car);
        }
        return {};
      }
      todo := todo - {at};
    }
    Verdict(s, live, matched, found);
    if found.Some? && |matched| >= 2 {
      return {found.value};
    }
    return {};
  }

  lemma Verdict(s: Setup, live: Live, matched: set<Address>, found: Option<Car>)
    requires Grounded(s, live, matched, found)
    requires forall at :: at in live ==> Covers(s, live, at, {}, matched, found)
    ensures forall car :: IsFuzzyMatch(s, live, car) <==> found == Some(car) && |matched| >= 2
  {
    forall car
      ensures IsFuzzyMatch(s, live, car) <==> found == Some(car) && |matched| >= 2
    {
      if IsFuzzyMatch(s, live, car) {
        MatchIsFound(s, live, matched, found, car);
      } else if found == Some(car) && |matched| >= 2 {
        FoundIsMatch(s, live, matched, car);
      }
    }
  }

  lemma MatchIsFound(s: Setup, live: Live, matched: set<Address>, found: Option<Car>, car: Car)
    requires forall at :: at in live ==> Covers(s, live, at, {}, matched, found)
    requires IsFuzzyMatch(s, live, car)
    ensures found == Some(car) && |matched| >= 2
  {
    var a, v, b, w :| a != b && Speaks(s, live, a, v, car) && Speaks(s, live, b, w, car);
    AtLeastTwo(matched, a, b);
  }

  lemma FoundIsMatch(s: Setup, live: Live, matched: set<Address>, car: Car)
    requires Grounded(s, live, matched, Some(car)) && |matched| >= 2
    requires forall at :: at in live ==> Covers(s, live, at, {}, matched, Some(car))
    ensures IsFuzzyMatch(s, live, car)
  {
    TwoElements(matched);
    var a, b :| a in matched && b in matched && a != b;
    var v :| Speaks(s, live, a, v, car);
    var w :| Speaks(s, live, b, w, car);
    forall at, v, c | Speaks(s, live, at, v, c)
      ensures c == car
    {
      assert Covers(s, live, at, {}, matched, Some(car));
    }
  }

  // ---------------------------------------------------------------------------------------------
  // The exact match

  /** What else the exact match is given: for each kind of control unit the cars that may go without it, and further versions
      known for a car. */
  datatype ExactSetup = ExactSetup(db: Database, brandOf: Car -> Brand, filter: Option<Brand>,
                                   nonEssential: (Brand, Ecu) -> set<Car>, extra: (Car, EcuKey) -> seq<Version>)

  predicate Essential(ecu: Ecu) { ecu in {Engine, Eps, Abs, FwdRadar, FwdCamera, Vsa} }

  function Answers(live: Live, at: Address): set<Version> {
    if at in live then live[at] else {}
  }

  /** A control unit agrees with the database: it answers with a known version, or it need not answer and does not. */
  ghost predicate Agrees(s: ExactSetup, live: Live, car: Car, key: EcuKey)
    requires car in s.db && key in s.db[car]
  {
    || key.ecu == Debug
    || (exists v :: IsAnswer(live, key.at, v) && (v in s.db[car][key] || v in s.extra(car, key)))
    || ((forall v :: !IsAnswer(live, key.at, v)) &&
        (car in s.nonEssential(s.brandOf(car), key.ecu) || key.ecu !in {Engine, Eps, Abs, FwdRadar, FwdCamera, Vsa}))
  }

  predicate IsAnswer(live: Live, at: Address, v: Version) { at in live && v in live[at] }

  lemma AnswersExactly(live: Live, at: Address)
    ensures forall v :: v in Answers(live, at) <==> IsAnswer(live, at, v)
    ensures Answers(live, at) == {} || exists v :: IsAnswer(live, at, v)
  {
    if forall v :: v !in Answers(live, at) {
      assert Answers(live, at) == {};
    }
  }

  ghost predicate IsExactMatch(s: ExactSetup, live: Live, car: Car) {
    && car in s.db && (s.filter.Some? ==> s.brandOf(car) == s.filter.value)
    && forall key :: key in s.db[car] ==> Agrees(s, live, car, key)
  }

  /** The control units of one candidate. */
  method CheckCandidate(s: ExactSetup, live: Live, car: Car) returns (valid: bool)
    requires car in s.db
    ensures valid <==> forall key :: key in s.db[car] ==> Agrees(s, live, car, key)
  {
    var todo := s.db[car].Keys;
    while exists key :: key in todo
      invariant todo <= s.db[car].Keys
      invariant forall key :: key in s.db[car] && key !in todo ==> Agrees(s, live, car, key)
      decreases todo
    {
      var key :| key in todo;
      todo := todo - {key};
      var expected := s.db[car][key] + s.extra(car, key);
      var found := Answers(live, key.at);
      AnswersExactly(live, key.at);
      if found == {} {
        if car in s.nonEssential(s.brandOf(car), key.ecu) {
          continue;
        }
        if !Essential(key.ecu) {
          continue;
        }
      }
      if key.ecu == Debug {
        continue;
      }
      if !(exists v :: v in found && v in expected) {
        return false;
      }
    }
    return true;
  }

  /** `match_fw_to_car_exact`: exactly the cars of the brand all of whose control units agree. */
  method MatchExact(s: ExactSetup, live: Live) returns (cars: set<Car>)
    ensures forall car :: car in cars <==> IsExactMatch(s, live, car)
  {
    var candidates := set car | car in s.db && IsBrand(s.brandOf(car), s.filter);
    var invalid: set<Car> := {};
    var todo := candidates;
    while exists car :: car in todo
      invariant todo <= candidates && invalid <= candidates
      invariant forall car :: car in candidates && car !in todo ==>
        (car in invalid <==> !forall key :: key in s.db[car] ==> Agrees(s, live, car, key))
      invariant forall car :: car in invalid ==> car !in todo
      decreases todo
    {
      var car :| car in todo;
      var valid := CheckCandidate(s, live, car);
      if !valid {
        invalid := invalid + {car};
      }
      todo := todo - {car};
    }
    cars := candidates - invalid;
  }

  // ---------------------------------------------------------------------------------------------
  // Properties of the matches

  /** Answers at addresses that no considered control unit uses change nothing. */
  lemma OtherAddressesDoNotMatter(s: Setup, live: Live, more: Live, car: Car)
    requires forall a :: a in more ==> a !in live
    requires forall o :: Occurs(s, o) ==> o.key.at !in more
    ensures IsFuzzyMatch(s, live + more, car) <==> IsFuzzyMatch(s, live, car)
  {
    forall at, v, c
      ensures Speaks(s, live + more, at, v, c) <==> Speaks(s, live, at, v, c)
    {
    }
  }
}
