/** The search over the built records (`searchData` in src/App.jsx): the
    query is trimmed and lower-cased; a blank query gives nothing; otherwise
    the result list holds the first record whose flat equals the query, then
    one entry per car whose number matches in full or, for a four-character
    query, by its last four characters, then one entry gathering every car
    whose model equals the query. */
module Lookup {
  import opened JsString
  import opened Sheet

  datatype Option<T> = None | Some(value: T)

  /** `{flat: d.flat, car}`: a car together with the flat of its record. */
  datatype Owner = Owner(flat: Cell, car: Car)

  /** One entry of the result list, by its `type` tag. */
  datatype Hit =
    | FlatHit(flat: Cell, cars: seq<Car>)
    | CarHit(flat: Cell, car: Car)
    | ModelHit(matches: seq<Owner>)

  /** `val.trim().toLowerCase()`. */
  function Normalize(val: string): string {
    LowerStr(Trim(val))
  }

  /** `d.flat?.toLowerCase() === q`: a missing flat never equals a string. */
  predicate FlatIs(d: Record, q: string) {
    d.flat.Text? && LowerStr(d.flat.s) == q
  }

  /** The car-number rule: full equality, else (for a four-character query)
      the number ends with the query. */
  predicate NumberMatches(number: string, q: string) {
    var n := LowerStr(number);
    n == q || (|q| == 4 && EndsWith(n, q))
  }

  predicate ModelIs(model: string, q: string) {
    LowerStr(model) == q
  }

  /** `data.find(d => ...)`: the first record whose flat equals `q`. */
  function FirstFlat(data: seq<Record>, q: string): (r: Option<Record>)
    ensures r.None? <==> forall k :: 0 <= k < |data| ==> !FlatIs(data[k], q)
    ensures r.Some? ==> exists k :: 0 <= k < |data| && data[k] == r.value && FlatIs(data[k], q)
                                    && forall j :: 0 <= j < k ==> !FlatIs(data[j], q)
  {
    if data == [] then None
    else if FlatIs(data[0], q) then Some(data[0])
    else
      var r := FirstFlat(data[1..], q);
      assert forall k :: 1 <= k < |data| ==> data[k] == data[1..][k - 1];
      r
  }

  /** The cars of one record, each with that record's flat. */
  function OwnersOf(d: Record): seq<Owner> {
    seq(|d.cars|, j requires 0 <= j < |d.cars| => Owner(d.flat, d.cars[j]))
  }

  /** Every car of every record, in record-then-car scan order. */
  function Owners(data: seq<Record>): seq<Owner> {
    if data == [] then [] else Owners(data[..|data| - 1]) + OwnersOf(data[|data| - 1])
  }

  /** The car entries the scan pushes for `os`, in scan order. */
  function CarHits(os: seq<Owner>, q: string): seq<Hit> {
    if os == [] then []
    else
      var m := os[|os| - 1];
      CarHits(os[..|os| - 1], q) + (if NumberMatches(m.car.number, q) then [CarHit(m.flat, m.car)] else [])
  }

  /** The `modelMatches` the scan gathers for `os`, in scan order. */
  function ModelOwners(os: seq<Owner>, q: string): seq<Owner> {
    if os == [] then []
    else
      var m := os[|os| - 1];
      ModelOwners(os[..|os| - 1], q) + (if ModelIs(m.car.model, q) then [m] else [])
  }

  /** The flat entry: the first record whose flat equals `q`, if any. */
  function FlatPart(data: seq<Record>, q: string): seq<Hit> {
    match FirstFlat(data, q)
    case None => []
    case Some(d) => [FlatHit(d.flat, d.cars)]
  }

  /** The model entry: present when some owner's model equals `q`. */
  function ModelPart(os: seq<Owner>, q: string): seq<Hit> {
    var models := ModelOwners(os, q);
    if models == [] then [] else [ModelHit(models)]
  }

  /** The result list `searchData(val)` hands to `setResults`. */
  function SearchResults(data: seq<Record>, val: string): seq<Hit> {
    var q := Normalize(val);
    if q == "" then []
    else FlatPart(data, q) + CarHits(Owners(data), q) + ModelPart(Owners(data), q)
  }

  // ---- the scan order of Owners ----

  lemma OwnersSnoc(data: seq<Record>, i: nat)
    requires i < |data|
    ensures Owners(data[..i + 1]) == Owners(data[..i]) + OwnersOf(data[i])
  {
    assert data[..i + 1][..i] == data[..i];
  }

  /** Scanning two lists of records one after the other visits the cars of
      the first, then those of the second. */
  lemma {:induction false} OwnersAppend(a: seq<Record>, b: seq<Record>)
    ensures Owners(a + b) == Owners(a) + Owners(b)
    decreases |b|
  {
    if b == [] {
      assert a + b == a;
    } else {
      var n := |b| - 1;
      assert (a + b)[..|a + b| - 1] == a + b[..n];
      OwnersAppend(a, b[..n]);
    }
  }

  /** The scan visits the records in order: the cars of record `k`, each with
      its flat and in their own order, come after those of every earlier
      record and before those of every later one. */
  lemma OwnersInOrder(data: seq<Record>, k: nat)
    requires k < |data|
    ensures Owners(data) == Owners(data[..k]) + OwnersOf(data[k]) + Owners(data[k + 1..])
    ensures forall j :: 0 <= j < |data[k].cars| ==>
      Owners(data)[|Owners(data[..k])| + j] == Owner(data[k].flat, data[k].cars[j])
  {
    assert data == data[..k + 1] + data[k + 1..];
    OwnersAppend(data[..k + 1], data[k + 1..]);
    OwnersSnoc(data, k);
  }

  /** An owner is in the scan exactly when it is some car of some record,
      paired with that record's flat. */
  lemma OwnersMembers(data: seq<Record>, m: Owner)
    ensures m in Owners(data) <==>
      exists k, j :: 0 <= k < |data| && 0 <= j < |data[k].cars| && m == Owner(data[k].flat, data[k].cars[j])
  {
    if m in Owners(data) {
      OwnersSound(data, m);
    }
    if exists k, j :: 0 <= k < |data| && 0 <= j < |data[k].cars| && m == Owner(data[k].flat, data[k].cars[j]) {
      var k, j :| 0 <= k < |data| && 0 <= j < |data[k].cars| && m == Owner(data[k].flat, data[k].cars[j]);
      OwnersInOrder(data, k);
    }
  }

  /** Every owner the scan visits is a car of some record with its flat. */
  lemma {:induction false} OwnersSound(data: seq<Record>, m: Owner)
    requires m in Owners(data)
    ensures exists k, j :: 0 <= k < |data| && 0 <= j < |data[k].cars| && m == Owner(data[k].flat, data[k].cars[j])
    decreases |data|
  {
    var n := |data| - 1;
    var init := data[..n];
    assert Owners(data) == Owners(init) + OwnersOf(data[n]);
    if m in Owners(init) {
      OwnersSound(init, m);
      var k, j :| 0 <= k < |init| && 0 <= j < |init[k].cars| && m == Owner(init[k].flat, init[k].cars[j]);
      assert init[k] == data[k];
    } else {
      var j :| 0 <= j < |data[n].cars| && OwnersOf(data[n])[j] == m;
    }
  }

  // ---- car hits ----

  lemma {:induction false} CarHitsAppend(a: seq<Owner>, b: seq<Owner>, q: string)
    ensures CarHits(a + b, q) == CarHits(a, q) + CarHits(b, q)
    decreases |b|
  {
    if b == [] {
      assert a + b == a;
    } else {
      var n := |b| - 1;
      assert (a + b)[..|a + b| - 1] == a + b[..n];
      CarHitsAppend(a, b[..n], q);
    }
  }

  /** Each owner of the scan adds at most one car entry, at its own place in
      scan order: one exactly when its number matches. */
  lemma CarHitsSplit(a: seq<Owner>, m: Owner, b: seq<Owner>, q: string)
    ensures CarHits(a + [m] + b, q) == CarHits(a, q)
      + (if NumberMatches(m.car.number, q) then [CarHit(m.flat, m.car)] else [])
      + CarHits(b, q)
  {
    CarHitsAppend(a + [m], b, q);
    assert (a + [m])[..|a|] == a;
  }

  /** The car entries are exactly the matching owners, no more entries than
      owners. */
  lemma {:induction false} CarHitsMembers(os: seq<Owner>, q: string)
    ensures |CarHits(os, q)| <= |os|
    ensures forall h :: h in CarHits(os, q) ==>
      exists m :: m in os && NumberMatches(m.car.number, q) && h == CarHit(m.flat, m.car)
    ensures forall m :: m in os && NumberMatches(m.car.number, q) ==> CarHit(m.flat, m.car) in CarHits(os, q)
    decreases |os|
  {
    if os != [] {
      var n := |os| - 1;
      CarHitsMembers(os[..n], q);
      assert os == os[..n] + [os[n]];
      forall m | m in os && NumberMatches(m.car.number, q)
        ensures CarHit(m.flat, m.car) in CarHits(os, q)
      {
        if m != os[n] {
          assert m in os[..n];
        }
      }
    }
  }

  /** The suffix rule only applies to four-character queries, and for those a
      full match is also a suffix match, so the `else if` never counts a car
      twice. */
  lemma NumberRule(number: string, q: string)
    ensures |q| != 4 ==> (NumberMatches(number, q) <==> LowerStr(number) == q)
    ensures |q| == 4 ==> (NumberMatches(number, q) <==> EndsWith(LowerStr(number), q))
  {
    var n := LowerStr(number);
    if |q| == 4 && n == q {
      assert n[|n| - |q|..] == n;
    }
  }

  // ---- model hits ----

  lemma {:induction false} ModelOwnersAppend(a: seq<Owner>, b: seq<Owner>, q: string)
    ensures ModelOwners(a + b, q) == ModelOwners(a, q) + ModelOwners(b, q)
    decreases |b|
  {
    if b == [] {
      assert a + b == a;
    } else {
      var n := |b| - 1;
      assert (a + b)[..|a + b| - 1] == a + b[..n];
      ModelOwnersAppend(a, b[..n], q);
    }
  }

  /** Each owner of the scan appears in `modelMatches` at most once, at its own
      place in scan order: once exactly when its model equals the query. */
  lemma ModelOwnersSplit(a: seq<Owner>, m: Owner, b: seq<Owner>, q: string)
    ensures ModelOwners(a + [m] + b, q) == ModelOwners(a, q)
      + (if ModelIs(m.car.model, q) then [m] else [])
      + ModelOwners(b, q)
  {
    ModelOwnersAppend(a + [m], b, q);
    assert (a + [m])[..|a|] == a;
  }

  /** `modelMatches` holds exactly the owners whose model equals the query. */
  lemma {:induction false} ModelOwnersMembers(os: seq<Owner>, q: string)
    ensures forall m :: m in ModelOwners(os, q) <==> m in os && ModelIs(m.car.model, q)
    decreases |os|
  {
    if os != [] {
      var n := |os| - 1;
      ModelOwnersMembers(os[..n], q);
      assert os == os[..n] + [os[n]];
    }
  }

  // ---- the search ----

  /** Where each kind of entry sits in a result list. */
  lemma ResultLayout(flatPart: seq<Hit>, cars: seq<Hit>, modelPart: seq<Hit>, k: nat)
    requires forall h :: h in flatPart ==> h.FlatHit?
    requires forall h :: h in cars ==> h.CarHit?
    requires forall h :: h in modelPart ==> h.ModelHit?
    requires |flatPart| <= 1 && |modelPart| <= 1
    requires k < |flatPart + cars + modelPart|
    ensures (flatPart + cars + modelPart)[k].FlatHit? ==> k == 0
    ensures (flatPart + cars + modelPart)[k].ModelHit? ==> k == |flatPart + cars + modelPart| - 1
  {
    var res := flatPart + cars + modelPart;
    if k < |flatPart| {
      assert res[k] in flatPart;
    } else if k < |flatPart| + |cars| {
      assert res[k] == cars[k - |flatPart|] && cars[k - |flatPart|] in cars;
    } else {
      assert res[k] == modelPart[k - |flatPart| - |cars|] && modelPart[k - |flatPart| - |cars|] in modelPart;
    }
  }

  /** Every entry `CarHits` produces is a car entry. */
  lemma {:induction false} CarHitsAreCars(os: seq<Owner>, q: string)
    ensures forall h :: h in CarHits(os, q) ==> h.CarHit?
    decreases |os|
  {
    if os != [] {
      CarHitsAreCars(os[..|os| - 1], q);
    }
  }

  /** The result list is in fixed category order: a flat entry can only come
      first and a model entry only last, so there is at most one of each,
      and the car entries lie in between. */
  lemma SearchCategoryOrder(data: seq<Record>, val: string)
    ensures var res := SearchResults(data, val);
      (forall k :: 0 <= k < |res| && res[k].FlatHit? ==> k == 0)
      && (forall k :: 0 <= k < |res| && res[k].ModelHit? ==> k == |res| - 1)
  {
    var q := Normalize(val);
    if q != "" {
      var os := Owners(data);
      CarHitsAreCars(os, q);
      forall k | 0 <= k < |SearchResults(data, val)|
        ensures SearchResults(data, val)[k].FlatHit? ==> k == 0
        ensures SearchResults(data, val)[k].ModelHit? ==> k == |SearchResults(data, val)| - 1
      {
        ResultLayout(FlatPart(data, q), CarHits(os, q), ModelPart(os, q), k);
      }
    }
  }

  /** The flat entry is there exactly when the query is not blank and some
      record's flat equals it, and then it carries the flat and cars of the
      first such record. */
  lemma SearchFlatEntry(data: seq<Record>, val: string)
    ensures var res := SearchResults(data, val); var q := Normalize(val);
      (|res| > 0 && res[0].FlatHit?) <==> q != "" && exists k :: 0 <= k < |data| && FlatIs(data[k], q)
    ensures var res := SearchResults(data, val); var q := Normalize(val);
      |res| > 0 && res[0].FlatHit? ==>
        exists k :: 0 <= k < |data| && res[0] == FlatHit(data[k].flat, data[k].cars) && FlatIs(data[k], q)
                    && forall j :: 0 <= j < k ==> !FlatIs(data[j], q)
  {
    var q := Normalize(val);
    if q != "" {
      var os := Owners(data);
      var res := SearchResults(data, val);
      CarHitsAreCars(os, q);
      if |res| > 0 && FlatPart(data, q) == [] {
        assert res[0] in CarHits(os, q) + ModelPart(os, q);
      }
    }
  }

  /** For a non-blank query the last entry is a model entry exactly when
      some car's model matches, and it then lists `modelMatches`. */
  lemma SearchLastEntry(data: seq<Record>, q: string)
    requires q != "" && Normalize(q) == q
    ensures var res := SearchResults(data, q);
      (|res| > 0 && res[|res| - 1].ModelHit?) <==> ModelOwners(Owners(data), q) != []
    ensures var res := SearchResults(data, q);
      ModelOwners(Owners(data), q) != [] ==> |res| > 0 && res[|res| - 1] == ModelHit(ModelOwners(Owners(data), q))
  {
    var os := Owners(data);
    var res := SearchResults(data, q);
    var front := FlatPart(data, q) + CarHits(os, q);
    assert res == front + ModelPart(os, q);
    if ModelOwners(os, q) == [] && |res| > 0 {
      CarHitsAreCars(os, q);
      assert res == front;
      assert res[|res| - 1] in front;
    }
  }

  /** The model entry is there exactly when the query is not blank and some
      car's model equals it, and then it carries every such car with its
      flat. */
  lemma SearchModelEntry(data: seq<Record>, val: string)
    ensures var res := SearchResults(data, val); var q := Normalize(val);
      (|res| > 0 && res[|res| - 1].ModelHit?) <==>
        q != "" && exists k, j :: 0 <= k < |data| && 0 <= j < |data[k].cars| && ModelIs(data[k].cars[j].model, q)
    ensures var res := SearchResults(data, val); var q := Normalize(val);
      |res| > 0 && res[|res| - 1].ModelHit? ==>
        forall m :: m in res[|res| - 1].matches <==> m in Owners(data) && ModelIs(m.car.model, q)
  {
    var q := Normalize(val);
    if q != "" {
      SearchNormalizedQuery(data, val);
      NormalizeIdempotent(val);
      assert SearchResults(data, val) == SearchResults(data, q);
      SearchLastEntry(data, q);
      ModelOwnersMembers(Owners(data), q);
      SomeModelMatches(data, q);
    }
  }

  /** Some car's model equals `q` exactly when `modelMatches` is not empty. */
  lemma SomeModelMatches(data: seq<Record>, q: string)
    ensures ModelOwners(Owners(data), q) != [] <==>
      exists k, j :: 0 <= k < |data| && 0 <= j < |data[k].cars| && ModelIs(data[k].cars[j].model, q)
  {
    var models := ModelOwners(Owners(data), q);
    ModelOwnersMembers(Owners(data), q);
    if exists k, j :: 0 <= k < |data| && 0 <= j < |data[k].cars| && ModelIs(data[k].cars[j].model, q) {
      var k, j :| 0 <= k < |data| && 0 <= j < |data[k].cars| && ModelIs(data[k].cars[j].model, q);
      OwnersMembers(data, Owner(data[k].flat, data[k].cars[j]));
      assert Owner(data[k].flat, data[k].cars[j]) in models;
    }
    if models != [] {
      var m := models[0];
      assert m in models;
      OwnersMembers(data, m);
    }
  }

  /** A blank query (empty, or only white space) gives no results,
      whatever the records. */
  lemma BlankQueryNoResults(data: seq<Record>, val: string)
    requires AllSpace(val)
    ensures SearchResults(data, val) == []
  {
  }

  /** Conversely, every other query finds something in some list of records:
      a record whose flat is the normalised query. */
  lemma NonBlankQueryCanMatch(val: string)
    requires !AllSpace(val)
    ensures SearchResults([Record(Text(Normalize(val)), [])], val)
      == [FlatHit(Text(Normalize(val)), [])]
  {
    var q := Normalize(val);
    LowerStrIdempotent(Trim(val));
    assert FlatIs(Record(Text(q), []), q);
    assert Owners([Record(Text(q), [])]) == [];
  }

  /** `trim` then `toLowerCase` is idempotent: normalising a normalised
      query changes nothing. */
  lemma NormalizeIdempotent(val: string)
    ensures Normalize(Normalize(val)) == Normalize(val)
  {
    TrimLowerCommute(Trim(val));
    TrimIdempotent(val);
    LowerStrIdempotent(Trim(val));
  }

  /** Searching for the normalised query gives the same results as the
      query itself. */
  lemma SearchNormalizedQuery(data: seq<Record>, val: string)
    ensures SearchResults(data, Normalize(val)) == SearchResults(data, val)
  {
    NormalizeIdempotent(val);
  }

  /** Queries that agree once lower-cased give the same results. */
  lemma SearchCaseInsensitive(data: seq<Record>, v: string, w: string)
    requires LowerStr(v) == LowerStr(w)
    ensures SearchResults(data, v) == SearchResults(data, w)
  {
    TrimLowerCommute(v);
    TrimLowerCommute(w);
  }

  /** In particular, for the ASCII case mapping of this model, upper-casing
      the query changes nothing. */
  lemma SearchIgnoresUpperCase(data: seq<Record>, v: string)
    ensures SearchResults(data, UpperStr(v)) == SearchResults(data, v)
  {
    LowerOfUpper(v);
    SearchCaseInsensitive(data, UpperStr(v), v);
  }

  /** White space around the query changes nothing. */
  lemma SearchIgnoresPadding(data: seq<Record>, p: string, v: string, p': string)
    requires AllSpace(p) && AllSpace(p')
    ensures SearchResults(data, p + v + p') == SearchResults(data, v)
  {
    TrimIgnoresPadding(p, v, p');
  }

  /** Every car whose number matches a non-blank query gives a car entry
      carrying its record's flat; nothing about that flat is required, so a
      record with a missing or empty flat still gives car entries. */
  lemma SearchCarEntries(data: seq<Record>, val: string, k: nat, j: nat)
    requires k < |data| && j < |data[k].cars|
    requires Normalize(val) != "" && NumberMatches(data[k].cars[j].number, Normalize(val))
    ensures CarHit(data[k].flat, data[k].cars[j]) in SearchResults(data, val)
  {
    OwnersMembers(data, Owner(data[k].flat, data[k].cars[j]));
    CarHitsMembers(Owners(data), Normalize(val));
  }

  /** A record whose flat is missing or empty is never the flat entry. */
  lemma BlankFlatNeverFlatHit(data: seq<Record>, val: string)
    ensures forall h :: h in SearchResults(data, val) && h.FlatHit? ==> Truthy(h.flat)
  {
    var res := SearchResults(data, val);
    SearchCategoryOrder(data, val);
    SearchFlatEntry(data, val);
    forall h | h in res && h.FlatHit?
      ensures Truthy(h.flat)
    {
      var k :| 0 <= k < |res| && res[k] == h;
      assert k == 0;
      var q := Normalize(val);
      var i :| 0 <= i < |data| && res[0] == FlatHit(data[i].flat, data[i].cars) && FlatIs(data[i], q);
      assert data[i].flat.s != "";
    }
  }

  /** The `forEach` over the records and their cars that pushes a car entry
      for every full match or, with a four-character query, suffix match. */
  method ScanCars(data: seq<Record>, q: string) returns (hits: seq<Hit>)
    ensures hits == CarHits(Owners(data), q)
  {
    hits := [];
    var i := 0;
    while i < |data|
      invariant i <= |data|
      invariant hits == CarHits(Owners(data[..i]), q)
    {
      var d := data[i];
      var j := 0;
      assert Owners(data[..i]) + OwnersOf(d)[..j] == Owners(data[..i]);
      while j < |d.cars|
        invariant j <= |d.cars|
        invariant hits == CarHits(Owners(data[..i]) + OwnersOf(d)[..j], q)
      {
        var car := d.cars[j];
        var carNum := LowerStr(car.number);
        if carNum == q {
          hits := hits + [CarHit(d.flat, car)];
        } else if |q| == 4 && EndsWith(carNum, q) {
          hits := hits + [CarHit(d.flat, car)];
        }
        ScanStep(Owners(data[..i]), d, j);
        j := j + 1;
      }
      assert OwnersOf(d)[..j] == OwnersOf(d);
      OwnersSnoc(data, i);
      i := i + 1;
    }
    assert data[..i] == data;
  }

  /** The `forEach` over the records and their cars that gathers
      `modelMatches`. */
  method ScanModels(data: seq<Record>, q: string) returns (modelMatches: seq<Owner>)
    ensures modelMatches == ModelOwners(Owners(data), q)
  {
    modelMatches := [];
    var i := 0;
    while i < |data|
      invariant i <= |data|
      invariant modelMatches == ModelOwners(Owners(data[..i]), q)
    {
      var d := data[i];
      var j := 0;
      assert Owners(data[..i]) + OwnersOf(d)[..j] == Owners(data[..i]);
      while j < |d.cars|
        invariant j <= |d.cars|
        invariant modelMatches == ModelOwners(Owners(data[..i]) + OwnersOf(d)[..j], q)
      {
        var car := d.cars[j];
        if LowerStr(car.model) == q {
          modelMatches := modelMatches + [Owner(d.flat, car)];
        }
        ScanStep(Owners(data[..i]), d, j);
        j := j + 1;
      }
      assert OwnersOf(d)[..j] == OwnersOf(d);
      OwnersSnoc(data, i);
      i := i + 1;
    }
    assert data[..i] == data;
  }

  /** One step of the inner scan: the prefix grows by the car at `j`. */
  lemma ScanStep(done: seq<Owner>, d: Record, j: nat)
    requires j < |d.cars|
    ensures var before := done + OwnersOf(d)[..j];
      var after := done + OwnersOf(d)[..j + 1];
      after[..|after| - 1] == before && after[|after| - 1] == Owner(d.flat, d.cars[j])
  {
    var before := done + OwnersOf(d)[..j];
    assert done + OwnersOf(d)[..j + 1] == before + [Owner(d.flat, d.cars[j])];
  }

  /** `searchData`: the early return on a blank query, `find` for the flat,
      the scan for car entries, the scan for `modelMatches`, and the final
      model entry. */
  method SearchData(data: seq<Record>, val: string) returns (res: seq<Hit>)
    ensures res == SearchResults(data, val)
  {
    var q := Normalize(val);
    if q == "" {
      return [];
    }
    res := [];
    var byFlat := FirstFlat(data, q);
    if byFlat.Some? {
      res := res + [FlatHit(byFlat.value.flat, byFlat.value.cars)];
    }
    assert res == FlatPart(data, q);
    var hits := ScanCars(data, q);
    res := res + hits;
    var modelMatches := ScanModels(data, q);
    if |modelMatches| > 0 {
      res := res + [ModelHit(modelMatches)];
    }
    assert res == FlatPart(data, q) + CarHits(Owners(data), q) + ModelPart(Owners(data), q);
  }

  // ---- worked examples ----

  lemma NormalizeDigits()
    ensures Normalize("1234") == "1234"
  {
    assert LowerStr("1234") == "1234";
    assert "1234"[0] == '1' && "1234"[3] == '4';
    TrimOfTrimmed("1234");
  }

  /** A number equal to a four-character query gives one car entry, not two. */
  lemma FourCharExactOnce()
    ensures SearchResults([Record(Text("B2"), [Car("1234", "")])], "1234")
      == [CarHit(Text("B2"), Car("1234", ""))]
  {
    var data := [Record(Text("B2"), [Car("1234", "")])];
    var m := Owner(Text("B2"), Car("1234", ""));
    NormalizeDigits();
    assert FirstFlat(data, "1234") == None by {
      assert LowerStr("B2") == "b2";
    }
    assert Owners(data) == [m] by {
      assert data[..0] == [];
      assert OwnersOf(data[0]) == [m];
    }
    assert [m][..0] == [];
    assert CarHits([m], "1234") == [CarHit(m.flat, m.car)] by {
      assert LowerStr("1234") == "1234";
    }
    assert ModelOwners([m], "1234") == [] by {
      assert LowerStr("") == "";
    }
  }

  lemma NormalizeSwift()
    ensures Normalize("Swift") == "swift"
  {
    assert LowerStr("Swift") == "swift";
    assert "Swift"[0] == 'S' && "Swift"[4] == 't';
    TrimOfTrimmed("Swift");
  }

  /** Two cars of the queried model in two flats give one model entry that
      lists both, in scan order, and nothing else. */
  lemma ModelAggregation()
    ensures SearchResults([Record(Text("A1"), [Car("X1", "Swift")]), Record(Text("A2"), [Car("X2", "Swift")])], "Swift")
      == [ModelHit([Owner(Text("A1"), Car("X1", "Swift")), Owner(Text("A2"), Car("X2", "Swift"))])]
  {
    var data := [Record(Text("A1"), [Car("X1", "Swift")]), Record(Text("A2"), [Car("X2", "Swift")])];
    var m1 := Owner(Text("A1"), Car("X1", "Swift"));
    var m2 := Owner(Text("A2"), Car("X2", "Swift"));
    NormalizeSwift();
    assert LowerStr("Swift") == "swift";
    assert FirstFlat(data, "swift") == None by {
      assert LowerStr("A1") == "a1" && LowerStr("A2") == "a2";
    }
    assert Owners(data) == [m1, m2] by {
      assert data[..1][..0] == [];
      assert OwnersOf(data[0]) == [m1];
      assert OwnersOf(data[1]) == [m2];
      assert data[..1] == [data[0]];
      assert Owners(data[..1]) == [m1];
    }
    assert [m1, m2][..1] == [m1] && [m1][..0] == [];
    assert CarHits([m1, m2], "swift") == [] by {
      assert LowerStr("X1") == "x1" && LowerStr("X2") == "x2";
      assert !NumberMatches("X1", "swift") && !NumberMatches("X2", "swift");
      assert CarHits([m1], "swift") == [];
    }
    assert ModelOwners([m1, m2], "swift") == [m1, m2] by {
      assert ModelIs(m1.car.model, "swift") && ModelIs(m2.car.model, "swift");
      assert ModelOwners([m1], "swift") == [m1];
    }
  }
}
