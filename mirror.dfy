/** The per-entity data sources of the admin console (products, orders,
    discounts, categories, addons). Each keeps a local mirror of its collection:
    `getMany` replaces the mirror with the projected remote rows and answers the
    grid's query from them; `createOne`, `updateOne` and `deleteOne` read, change
    and write the mirror; an unexported helper patches the server first and
    falls back to the local merge. The five copies differ in the key field, the
    projection, the delete-time normalisation and the not-found message. */
module EntitySource {
  import opened Wrappers
  import opened JsValues
  import opened QueryEngine

  datatype Entity = Products | Orders | Discounts | Categories | Addons

  /** Products and orders are looked up by `id` against `Number(arg)`; the
      other three by `_id` against the argument itself. */
  predicate NumericKey(e: Entity)
  {
    e.Products? || e.Orders?
  }

  function KeyField(e: Entity): string
  {
    if NumericKey(e) then "id" else "_id"
  }

  /** The message of the error `updateOne` throws when no entry matches. */
  function NotFoundMessage(e: Entity): string
  {
    match e
    case Products => "Product not found"
    case Orders => "Order not found"
    case Discounts => "Discount not found"
    case Categories => "Category not found"
    case Addons => "Addon not found"
  }

  // ---------------------------------------------------------------------
  // Projection of remote rows
  // ---------------------------------------------------------------------

  /** The fields a projection writes over the remote row's own. */
  function ProjectedFields(e: Entity): set<string>
  {
    match e
    case Products => {"id", "name", "category", "price", "status", "createdAt"}
    case Orders => {"id", "name", "status", "date"}
    case Discounts => {"id", "name", "percentage", "requiresVerification"}
    case Categories => {"id", "name", "createdAt"}
    case Addons => {"id"}
  }

  /** The status label a product row shows. */
  function StatusLabel(available: Value): (v: Value)
    ensures v == Str("available") || v == Str("unavailable")
    ensures v == Str("available") <==> Truthy(available)
  {
    Str(if Truthy(available) then "available" else "unavailable")
  }

  /** The projected row `p` keeps every remote field of `r` outside `fields`,
      adds nothing but `fields`, and carries the remote `_id` as its `id`. */
  predicate Overlays(r: Record, p: Record, fields: set<string>)
  {
    Get(p, "id") == Get(r, "_id")
    && (forall f :: f in r && f !in fields ==> f in p && p[f] == r[f])
    && (forall f :: f in p ==> f in r || f in fields)
  }

  /** Writing `m` over `r` overlays exactly the fields `m` sets. */
  lemma OverlayBy(r: Record, m: Record, fields: set<string>)
    requires m.Keys == fields && "id" in m && m["id"] == Get(r, "_id")
    ensures Overlays(r, r + m, fields)
  {
  }

  /** The six columns a product row writes, given the category's name. */
  function ProductColumns(r: Record, category: Value): Record
  {
    map["id" := Get(r, "_id"), "name" := Get(r, "name"), "category" := category,
        "price" := Get(r, "basePrice"), "status" := StatusLabel(Get(r, "available")),
        "createdAt" := Get(r, "createdAt")]
  }

  /** A product row: reading `category.name` of a product whose category is
      null or missing throws. */
  function ProductRow(r: Record): (p: Result<Record, Exception>)
    ensures p.Err? <==> Nullish(Get(r, "category"))
    ensures p.Ok? ==> Overlays(r, p.value, ProjectedFields(Products))
  {
    match Member(Get(r, "category"), "name")
    case Err(x) => Err(x)
    case Ok(category) =>
      OverlayBy(r, ProductColumns(r, category), ProjectedFields(Products));
      Ok(r + ProductColumns(r, category))
  }

  function OrderRow(r: Record): (p: Record)
    ensures Overlays(r, p, ProjectedFields(Orders))
  {
    r + map["id" := Get(r, "_id"), "name" := OptionalMember(Get(r, "user"), "name"),
            "status" := Get(r, "status"), "date" := Get(r, "createdAt")]
  }

  function DiscountRow(r: Record): (p: Record)
    ensures Overlays(r, p, ProjectedFields(Discounts))
  {
    r + map["id" := Get(r, "_id"), "name" := Get(r, "name"), "percentage" := Get(r, "percentage"),
            "requiresVerification" := Get(r, "requiresVerification")]
  }

  function CategoryRow(r: Record): (p: Record)
    ensures Overlays(r, p, ProjectedFields(Categories))
  {
    r + map["id" := Get(r, "_id"), "name" := Get(r, "name"), "createdAt" := Get(r, "createdAt")]
  }

  function AddonRow(r: Record): (p: Record)
    ensures Overlays(r, p, ProjectedFields(Addons))
  {
    r + map["id" := Get(r, "_id")]
  }

  /** The `map` callback of `getMany`: every remote field is kept, then the
      entity's display fields are set. Only a product row can throw. */
  function Project(e: Entity, r: Record): (p: Result<Record, Exception>)
    ensures p.Err? <==> e.Products? && Nullish(Get(r, "category"))
    ensures p.Ok? ==> Get(p.value, "id") == Get(r, "_id")
    ensures p.Ok? ==> forall f :: f in r && f !in ProjectedFields(e) ==> f in p.value && p.value[f] == r[f]
    ensures p.Ok? ==> forall f :: f in p.value ==> f in r || f in ProjectedFields(e)
  {
    match e
    case Products => ProductRow(r)
    case Orders => Ok(OrderRow(r))
    case Discounts => Ok(DiscountRow(r))
    case Categories => Ok(CategoryRow(r))
    case Addons => Ok(AddonRow(r))
  }

  /** A product row shows the category's name, the base price, and a status
      label read from `available`. */
  lemma ProjectProduct(r: Record)
    requires !Nullish(Get(r, "category"))
    ensures Project(Products, r).Ok?
    ensures var p := Project(Products, r).value;
      Get(p, "category") == Member(Get(r, "category"), "name").value
      && Get(p, "price") == Get(r, "basePrice")
      && (Get(p, "status") == Str("available") <==> Truthy(Get(r, "available")))
      && (Get(p, "status") == Str("unavailable") <==> !Truthy(Get(r, "available")))
  {
    var category := Member(Get(r, "category"), "name").value;
    var m := ProductColumns(r, category);
    assert Project(Products, r) == Ok(r + m);
    assert Get(r + m, "category") == category by {
      assert m["category"] == category;
    }
    assert Get(r + m, "price") == Get(r, "basePrice") by {
      assert m["price"] == Get(r, "basePrice");
    }
    assert Get(r + m, "status") == StatusLabel(Get(r, "available")) by {
      assert m["status"] == StatusLabel(Get(r, "available"));
    }
  }

  /** An order row shows the customer's name (`user?.name`) and the creation date. */
  lemma ProjectOrder(r: Record)
    ensures Project(Orders, r).Ok?
    ensures var p := Project(Orders, r).value;
      Get(p, "name") == OptionalMember(Get(r, "user"), "name")
      && Get(p, "date") == Get(r, "createdAt")
      && Get(p, "status") == Get(r, "status")
  {
  }

  /** `rows.map(project)`: the first throwing row aborts the whole map. The
      recursion peels the last row, so a row projects only after every row
      before it has. */
  function ProjectAll(e: Entity, rows: seq<Record>): (r: Result<seq<Record>, Exception>)
    ensures r.Ok? <==> forall i :: 0 <= i < |rows| ==> Project(e, rows[i]).Ok?
    ensures r.Ok? ==> |r.value| == |rows|
    ensures r.Ok? ==> forall i :: 0 <= i < |rows| ==> Project(e, rows[i]) == Ok(r.value[i])
    decreases |rows|
  {
    if rows == [] then Ok([])
    else
      match ProjectAll(e, rows[..|rows| - 1])
      case Err(x) =>
        InitFailure(e, rows, rows[..|rows| - 1]);
        Err(x)
      case Ok(ps) =>
        match Project(e, rows[|rows| - 1])
        case Err(x) => Err(x)
        case Ok(p) =>
          SnocProjected(e, rows, rows[..|rows| - 1], ps, p);
          Ok(ps + [p])
  }

  /** A row before the last that does not project stops the whole map. */
  lemma InitFailure(e: Entity, rows: seq<Record>, init: seq<Record>)
    requires rows != [] && init == rows[..|rows| - 1]
    requires !forall i :: 0 <= i < |init| ==> Project(e, init[i]).Ok?
    ensures !forall i :: 0 <= i < |rows| ==> Project(e, rows[i]).Ok?
  {
    var i :| 0 <= i < |init| && !Project(e, init[i]).Ok?;
    assert init[i] == rows[i];
  }

  /** Appending the last row's projection to the projections of the others. */
  lemma SnocProjected(e: Entity, rows: seq<Record>, init: seq<Record>, ps: seq<Record>, p: Record)
    requires rows != [] && init == rows[..|rows| - 1] && |ps| == |init|
    requires forall i :: 0 <= i < |init| ==> Project(e, init[i]) == Ok(ps[i])
    requires Project(e, rows[|rows| - 1]) == Ok(p)
    ensures forall i :: 0 <= i < |rows| ==> Project(e, rows[i]) == Ok((ps + [p])[i])
  {
    forall i | 0 <= i < |rows|
      ensures Project(e, rows[i]) == Ok((ps + [p])[i])
    {
      if i < |rows| - 1 {
        assert init[i] == rows[i];
        assert (ps + [p])[i] == ps[i];
      }
    }
  }

  /** A failed fetch reads as an empty collection. */
  function Fetched(response: Option<seq<Record>>): seq<Record>
  {
    match response
    case Some(rows) => rows
    case None => []
  }

  /** After a failed fetch the mirror is emptied and the page is empty. */
  lemma FailedFetchEmpties(e: Entity, q: Query)
    ensures ProjectAll(e, Fetched(None)) == Ok([])
    ensures Evaluate([], q) == Page([], 0)
  {
    FilterAllIsConjunction([], q.filters);
    assert FilterAll([], q.filters) == [];
    assert SortIfRequested([], q.sorts) == [];
    var start := q.pagination.page * q.pagination.pageSize;
    assert Slice([], start, start + q.pagination.pageSize) == [];
  }

  // ---------------------------------------------------------------------
  // createOne: the next key
  // ---------------------------------------------------------------------

  /** `Math.max(a, b)` where either side may be NaN (`None`). */
  function JsMax(a: Option<real>, b: Option<real>): Option<real>
  {
    if a.None? || b.None? then None
    else Some(if a.value >= b.value then a.value else b.value)
  }

  /** `rows.reduce((max, row) => Math.max(max, row[key]), 0)`. */
  function MaxKey(rows: seq<Record>, key: string): (m: Option<real>)
    ensures m.Some? ==> m.value >= 0.0
    ensures m.Some? <==> forall i :: 0 <= i < |rows| ==> ToNumber(Get(rows[i], key)).Some?
    ensures m.Some? ==> forall i :: 0 <= i < |rows| ==> ToNumber(Get(rows[i], key)).value <= m.value
    decreases |rows|
  {
    if rows == [] then Some(0.0)
    else JsMax(MaxKey(rows[..|rows| - 1], key), ToNumber(Get(rows[|rows| - 1], key)))
  }

  /** The maximum is attained: it is the starting 0 or some entry's key. */
  lemma {:induction false} MaxKeyAttained(rows: seq<Record>, key: string)
    requires MaxKey(rows, key).Some?
    ensures MaxKey(rows, key).value == 0.0
      || exists i :: 0 <= i < |rows| && ToNumber(Get(rows[i], key)) == MaxKey(rows, key)
    decreases |rows|
  {
    if rows != [] {
      var init := rows[..|rows| - 1];
      var last := ToNumber(Get(rows[|rows| - 1], key));
      assert forall i :: 0 <= i < |init| ==> init[i] == rows[i];
      assert MaxKey(init, key).Some?;
      MaxKeyAttained(init, key);
      if last.value < MaxKey(init, key).value && MaxKey(init, key).value != 0.0 {
        var j :| 0 <= j < |init| && ToNumber(Get(init[j], key)) == MaxKey(init, key);
        assert ToNumber(Get(rows[j], key)) == MaxKey(rows, key);
      }
    }
  }

  /** The synthesized key: one more than the largest, or NaN when some entry's
      key is not a number. */
  function NextKey(rows: seq<Record>, key: string): Value
  {
    match MaxKey(rows, key)
    case Some(m) => Num(m + 1.0)
    case None => NaN
  }

  /** When it is a number, the synthesized key is at least 1 and differs from
      every entry's key, even after `Number(...)`. */
  lemma NextKeyFresh(rows: seq<Record>, key: string)
    requires NextKey(rows, key).Num?
    ensures NextKey(rows, key).n >= 1.0
    ensures forall i :: 0 <= i < |rows| ==>
      !StrictEquals(Get(rows[i], key), NextKey(rows, key))
      && NumberValue(Get(rows[i], key)) != NextKey(rows, key)
  {
    var m := MaxKey(rows, key).value;
    forall i | 0 <= i < |rows|
      ensures !StrictEquals(Get(rows[i], key), NextKey(rows, key))
      ensures NumberValue(Get(rows[i], key)) != NextKey(rows, key)
    {
      var v := Get(rows[i], key);
      assert ToNumber(v).value <= m;
    }
  }

  /** createOne's key rule: the synthesized key is a number exactly when every
      entry's key is one, and it is then 1 + max(0, keys), that is one more
      than a value that is 0 or some entry's key and bounds every key. */
  lemma NextKeyIsOnePlusMax(rows: seq<Record>, key: string)
    ensures NextKey(rows, key).Num? <==> forall i :: 0 <= i < |rows| ==> ToNumber(Get(rows[i], key)).Some?
    ensures NextKey(rows, key).NaN? <==> !NextKey(rows, key).Num?
    ensures NextKey(rows, key).Num? ==>
      var m := NextKey(rows, key).n - 1.0;
      m >= 0.0
      && (forall i :: 0 <= i < |rows| ==> ToNumber(Get(rows[i], key)).value <= m)
      && (m == 0.0 || exists i :: 0 <= i < |rows| && ToNumber(Get(rows[i], key)) == Some(m))
  {
    if NextKey(rows, key).Num? {
      MaxKeyAttained(rows, key);
    }
  }

  /** `{ [key]: next, ...data }`: a key in `data` wins over the synthesized one. */
  function NewRecord(rows: seq<Record>, key: string, data: Record): (r: Record)
    ensures Get(r, key) == if key in data then data[key] else NextKey(rows, key)
    ensures forall f :: f != key ==> Get(r, f) == Get(data, f)
    ensures r.Keys == data.Keys + {key}
  {
    map[key := NextKey(rows, key)] + data
  }

  // ---------------------------------------------------------------------
  // updateOne and the remote-first helper: merging a patch
  // ---------------------------------------------------------------------

  /** `{ ...row, ...patch }`. */
  function Merge(row: Record, patch: Record): (r: Record)
    ensures forall f :: Get(r, f) == if f in patch then patch[f] else Get(row, f)
    ensures r.Keys == row.Keys + patch.Keys
  {
    row + patch
  }

  /** Which test picks the entries to patch: the local merge of `updateOne`
      (and of the helper's fallback), or the helper's merge after the server
      accepted the patch. */
  datatype Lookup = Local | AfterRemote

  predicate Matches(e: Entity, how: Lookup, row: Record, id: Value)
  {
    match how
    case Local =>
      if NumericKey(e) then StrictEquals(Get(row, "id"), NumberValue(id))
      else StrictEquals(Get(row, "_id"), id)
    case AfterRemote =>
      if NumericKey(e) then StrictEquals(Get(row, "id"), id) || StrictEquals(Get(row, "_id"), id)
      else StrictEquals(Get(row, "_id"), id)
  }

  /** The test `Matches` as the callback the `map` runs. */
  function Matcher(e: Entity, how: Lookup, id: Value): Record -> bool
  {
    row => Matches(e, how, row, id)
  }

  /** The new mirror: each entry that satisfies `p` merged with the patch, the
      rest as they were. */
  function MergeWhere(rows: seq<Record>, p: Record -> bool, patch: Record): (r: seq<Record>)
    ensures |r| == |rows|
    ensures forall i :: 0 <= i < |rows| ==> r[i] == if p(rows[i]) then Merge(rows[i], patch) else rows[i]
    decreases |rows|
  {
    if rows == [] then []
    else
      var last := rows[|rows| - 1];
      MergeWhere(rows[..|rows| - 1], p, patch) + [if p(last) then Merge(last, patch) else last]
  }

  /** The value the `map` callback leaves in `updatedX`: the merge of the last
      entry that satisfies `p`, or nothing when none does. */
  function LastMerged(rows: seq<Record>, p: Record -> bool, patch: Record): Option<Record>
    decreases |rows|
  {
    if rows == [] then None
    else
      var last := rows[|rows| - 1];
      if p(last) then Some(Merge(last, patch)) else LastMerged(rows[..|rows| - 1], p, patch)
  }

  /** One more entry of the `map` callback: merged when it satisfies `p`, and
      then the last merged entry. */
  lemma MergeStep(rows: seq<Record>, i: int, p: Record -> bool, patch: Record)
    requires 0 <= i < |rows|
    ensures MergeWhere(rows[..i + 1], p, patch)
         == MergeWhere(rows[..i], p, patch) + [if p(rows[i]) then Merge(rows[i], patch) else rows[i]]
    ensures LastMerged(rows[..i + 1], p, patch)
         == if p(rows[i]) then Some(Merge(rows[i], patch)) else LastMerged(rows[..i], p, patch)
  {
    PrefixStep(rows, i);
  }

  /** The index of the last entry that satisfies `p`, or -1 when none does. */
  function LastIndex(rows: seq<Record>, p: Record -> bool): (k: int)
    ensures -1 <= k < |rows|
    decreases |rows|
  {
    if rows == [] then -1
    else if p(rows[|rows| - 1]) then |rows| - 1
    else LastIndex(rows[..|rows| - 1], p)
  }

  /** The index found is that of the last entry satisfying `p`; -1 means none does. */
  lemma {:induction false} LastIndexCorrect(rows: seq<Record>, p: Record -> bool)
    ensures var k := LastIndex(rows, p);
      (k == -1 <==> forall i :: 0 <= i < |rows| ==> !p(rows[i]))
      && (k >= 0 ==> p(rows[k]) && forall j :: k < j < |rows| ==> !p(rows[j]))
    decreases |rows|
  {
    if rows != [] && !p(rows[|rows| - 1]) {
      var init := rows[..|rows| - 1];
      LastIndexCorrect(init, p);
      forall i | 0 <= i < |init| ensures rows[i] == init[i] {
      }
    }
  }

  /** What `updateX` returns is the merge of the last matching entry. */
  lemma {:induction false} LastMergedIsLast(rows: seq<Record>, p: Record -> bool, patch: Record)
    ensures var k := LastIndex(rows, p);
      LastMerged(rows, p, patch) == if k < 0 then None else Some(Merge(rows[k], patch))
    decreases |rows|
  {
    if rows != [] && !p(rows[|rows| - 1]) {
      var init := rows[..|rows| - 1];
      LastMergedIsLast(init, p, patch);
      var k := LastIndex(init, p);
      if k >= 0 {
        assert init[k] == rows[k];
      }
    }
  }

  /** An entry that came from the server carries its Mongo string id in `id`,
      and no string is strictly equal to a number: `updateOne` of products and
      orders never matches such an entry. */
  lemma StringIdsNeverMatchLocally(e: Entity, row: Record, id: Value)
    requires NumericKey(e) && Get(row, "id").Str?
    ensures !Matches(e, Local, row, id)
  {
    assert NumberValue(id).Num? || NumberValue(id).NaN?;
  }

  // ---------------------------------------------------------------------
  // deleteOne
  // ---------------------------------------------------------------------

  /** The normalisation an order entry goes through before the delete filter. */
  function NormaliseOrder(r: Record): (n: Record)
    ensures Get(n, "id") == Coalesce(Get(r, "_id"), Get(r, "id"))
    ensures Get(n, "name") == Coalesce(OptionalMember(Get(r, "user"), "name"), Get(r, "name"))
    ensures Get(n, "date") == Coalesce(Get(r, "createdAt"), Get(r, "date"))
    ensures Get(n, "status") == Get(r, "status")
    ensures n.Keys == r.Keys + {"id", "name", "status", "date"}
    ensures forall f :: f !in {"id", "name", "status", "date"} ==> Get(n, f) == Get(r, f)
  {
    r + map["id" := Coalesce(Get(r, "_id"), Get(r, "id")),
            "name" := Coalesce(OptionalMember(Get(r, "user"), "name"), Get(r, "name")),
            "status" := Get(r, "status"),
            "date" := Coalesce(Get(r, "createdAt"), Get(r, "date"))]
  }

  /** Normalising an order twice changes nothing more: repeated deletes keep
      order entries intact. */
  lemma NormaliseOrderIdempotent(r: Record)
    ensures NormaliseOrder(NormaliseOrder(r)) == NormaliseOrder(r)
  {
    var n := NormaliseOrder(r);
    var nn := NormaliseOrder(n);
    assert Get(n, "_id") == Get(r, "_id") && Get(n, "user") == Get(r, "user");
    assert Get(n, "createdAt") == Get(r, "createdAt");
    assert nn.Keys == n.Keys;
    forall f | f in nn ensures nn[f] == n[f] {
      assert Get(nn, f) == Get(n, f);
    }
  }

  function NormaliseOrders(rows: seq<Record>): (r: seq<Record>)
    ensures |r| == |rows|
    ensures forall i :: 0 <= i < |rows| ==> r[i] == NormaliseOrder(rows[i])
  {
    seq(|rows|, i requires 0 <= i < |rows| => NormaliseOrder(rows[i]))
  }

  /** What `deleteOne` does to the mirror before filtering: products are
      projected again (and may throw), orders are normalised, the others are
      left as they are. */
  function Renormalise(e: Entity, rows: seq<Record>): Result<seq<Record>, Exception>
  {
    match e
    case Products => ProjectAll(Products, rows)
    case Orders => Ok(NormaliseOrders(rows))
    case _ => Ok(rows)
  }

  /** The delete filter: products and orders drop an entry whose id equals the
      argument or its number; the others one whose `_id` equals the argument. */
  predicate Survives(e: Entity, row: Record, id: Value)
  {
    if NumericKey(e) then !StrictEquals(Get(row, "id"), id) && !StrictEquals(Get(row, "id"), NumberValue(id))
    else !StrictEquals(Get(row, "_id"), id)
  }

  /** `rows.filter(survives)`. */
  function Survivors(e: Entity, rows: seq<Record>, id: Value): (r: seq<Record>)
    ensures |r| <= |rows|
    ensures forall x :: x in r <==> x in rows && Survives(e, x, id)
    ensures multiset(r) <= multiset(rows)
    ensures forall x :: multiset(r)[x] == if Survives(e, x, id) then multiset(rows)[x] else 0
    decreases |rows|
  {
    if rows == [] then []
    else
      assert rows == [rows[0]] + rows[1..];
      (if Survives(e, rows[0], id) then [rows[0]] else []) + Survivors(e, rows[1..], id)
  }

  /** Filtering a non-empty mirror: its first entry, when it survives, then
      the survivors of the rest. */
  lemma SurvivorsCons(e: Entity, rows: seq<Record>, id: Value)
    requires rows != []
    ensures Survivors(e, rows, id)
      == (if Survives(e, rows[0], id) then [rows[0]] else []) + Survivors(e, rows[1..], id)
  {
  }

  /** The delete filter keeps the surviving entries in their order: filtering
      a concatenation filters each part. */
  lemma {:induction false} SurvivorsAppend(e: Entity, a: seq<Record>, b: seq<Record>, id: Value)
    ensures Survivors(e, a + b, id) == Survivors(e, a, id) + Survivors(e, b, id)
    decreases |a|
  {
    if a == [] {
      EmptyAppend(a, b);
    } else {
      SurvivorsConsAppend(e, a, b, id);
      SurvivorsCons(e, a, id);
      SurvivorsAppend(e, a[1..], b, id);
      Regroup(Survivors(e, a + b, id), if Survives(e, a[0], id) then [a[0]] else [],
              Survivors(e, a[1..] + b, id), Survivors(e, a[1..], id), Survivors(e, b, id),
              Survivors(e, a, id));
    }
  }

  /** Filtering a concatenation with a non-empty front: the front's first
      entry, when it survives, then the filtered rest. */
  lemma SurvivorsConsAppend(e: Entity, a: seq<Record>, b: seq<Record>, id: Value)
    requires a != []
    ensures Survivors(e, a + b, id)
      == (if Survives(e, a[0], id) then [a[0]] else []) + Survivors(e, a[1..] + b, id)
  {
    AppendTail(a, b);
    SurvivorsCons(e, a + b, id);
  }

  /** One entry survives exactly when its key differs from the argument. */
  lemma SurvivorsOne(e: Entity, x: Record, id: Value)
    ensures Survivors(e, [x], id) == if Survives(e, x, id) then [x] else []
  {
  }

  /** Every surviving entry of the `_id`-keyed collections is kept, in order:
      exactly the entries with another `_id` remain. */
  lemma {:induction false} SurvivorsKeepOthers(e: Entity, rows: seq<Record>, id: Value)
    requires forall i :: 0 <= i < |rows| ==> Survives(e, rows[i], id)
    ensures Survivors(e, rows, id) == rows
    decreases |rows|
  {
    if rows != [] {
      assert forall i :: 0 <= i < |rows[1..]| ==> Survives(e, rows[1..][i], id) by {
        forall i | 0 <= i < |rows[1..]| ensures Survives(e, rows[1..][i], id) {
          assert rows[1..][i] == rows[i + 1];
        }
      }
      SurvivorsKeepOthers(e, rows[1..], id);
      SurvivorsCons(e, rows, id);
      HeadTail(rows);
    }
  }

  /** Re-projecting a product row whose category is already a name string
      loses the category: a string has no `name`. */
  lemma ReprojectLosesCategory(r: Record)
    requires Get(r, "category").Str?
    ensures Project(Products, r).Ok?
    ensures Get(Project(Products, r).value, "category") == Undefined
  {
    assert Member(Get(r, "category"), "name") == Ok(Undefined);
    var m := ProductColumns(r, Undefined);
    assert Project(Products, r) == Ok(r + m);
    assert Get(r + m, "category") == Undefined by {
      assert m["category"] == Undefined;
    }
  }

  /** Products created locally have no `_id`; re-projection sets their `id` to
      `undefined`, so `deleteOne` with a route parameter (a string) can never
      remove them. */
  lemma LocalProductsSurviveDelete(r: Record, id: Value)
    requires id.Str?
    requires "_id" !in r && !Nullish(Get(r, "category"))
    ensures Project(Products, r).Ok?
    ensures Get(Project(Products, r).value, "id") == Undefined
    ensures Survives(Products, Project(Products, r).value, id)
  {
  }

  // ---------------------------------------------------------------------
  // The data source
  // ---------------------------------------------------------------------

  /** The filter loop of `getMany`: each active clause in turn narrows the rows. */
  method FilterRows(rows: seq<Record>, cs: seq<Clause>) returns (filtered: seq<Record>)
    ensures filtered == FilterAll(rows, cs)
  {
    filtered := rows;
    var i := 0;
    while i < |cs|
      invariant 0 <= i <= |cs|
      invariant filtered == FilterAll(rows, cs[..i])
    {
      var c := cs[i];
      PrefixStep(cs, i);
      assert FilterAll(rows, cs[..i + 1]) == ApplyClause(filtered, c);
      if Active(c) {
        filtered := KeepHolding(filtered, c);
      }
      i := i + 1;
    }
    WholePrefix(cs);
  }

  /** The local mirror of one collection and the operations on it. */
  class DataSource {
    const entity: Entity
    var mirror: seq<Record>

    /** The mirror starts empty: nothing is stored yet. */
    constructor (e: Entity)
      ensures entity == e && mirror == []
    {
      entity := e;
      mirror := [];
    }

    /** `getMany`: project the fetched rows, overwrite the mirror with them,
        then filter clause by clause, sort, and cut out the page. A projection
        that throws rejects the call before the mirror is written. */
    method GetMany(response: Option<seq<Record>>, q: Query) returns (r: Result<Page, Exception>)
      modifies this
      ensures match ProjectAll(entity, Fetched(response))
        case Err(x) => r == Err(x) && mirror == old(mirror)
        case Ok(rows) => mirror == rows && r == Ok(Evaluate(rows, q))
    {
      var projected := ProjectAll(entity, Fetched(response));
      if projected.Err? {
        return Err(projected.error);
      }
      var rows := projected.value;
      mirror := rows;
      var filtered := FilterRows(rows, q.filters);
      var sorted := SortIfRequested(filtered, q.sorts);
      r := Ok(Paginate(sorted, q.pagination));
    }

    /** `createOne`: append `{ [key]: next, ...data }` without calling the server. */
    method CreateOne(data: Record) returns (created: Record)
      modifies this
      ensures created == NewRecord(old(mirror), KeyField(entity), data)
      ensures mirror == old(mirror) + [created]
    {
      created := NewRecord(mirror, KeyField(entity), data);
      mirror := mirror + [created];
    }

    /** `updateOne`: merge the patch into every matching entry, remembering the
        last merged entry; with no match, throw without writing the mirror. */
    method UpdateOne(id: Value, patch: Record) returns (r: Result<Record, Exception>)
      modifies this
      ensures match LastMerged(old(mirror), Matcher(entity, Local, id), patch)
        case None => r == Err(NotFound(NotFoundMessage(entity))) && mirror == old(mirror)
        case Some(u) => r == Ok(u) && mirror == MergeWhere(old(mirror), Matcher(entity, Local, id), patch)
    {
      var matches := Matcher(entity, Local, id);
      var rows := mirror;
      var updated: Option<Record> := None;
      var out: seq<Record> := [];
      var i := 0;
      while i < |rows|
        invariant 0 <= i <= |rows|
        invariant mirror == rows
        invariant out == MergeWhere(rows[..i], matches, patch)
        invariant updated == LastMerged(rows[..i], matches, patch)
      {
        var row := rows[i];
        MergeStep(rows, i, matches, patch);
        if matches(row) {
          updated := Some(Merge(row, patch));
          out := out + [updated.value];
        } else {
          out := out + [row];
        }
        i := i + 1;
      }
      WholePrefix(rows);
      assert updated == LastMerged(rows, matches, patch);
      assert out == MergeWhere(rows, matches, patch);
      if updated.None? {
        return Err(NotFound(NotFoundMessage(entity)));
      }
      mirror := out;
      r := Ok(updated.value);
    }

    /** The unexported remote-first helper: when the server accepts the patch,
        merge it into the entries matching by `id` or `_id` and return the
        server's body; otherwise fall back to `updateOne`'s local merge. */
    method UpdateRemoteFirst(id: Value, patch: Record, response: Option<Record>) returns (r: Result<Record, Exception>)
      modifies this
      ensures response.Some? ==>
        r == Ok(response.value) && mirror == MergeWhere(old(mirror), Matcher(entity, AfterRemote, id), patch)
      ensures response.None? ==> match LastMerged(old(mirror), Matcher(entity, Local, id), patch)
        case None => r == Err(NotFound(NotFoundMessage(entity))) && mirror == old(mirror)
        case Some(u) => r == Ok(u) && mirror == MergeWhere(old(mirror), Matcher(entity, Local, id), patch)
    {
      if response.Some? {
        mirror := MergeWhere(mirror, Matcher(entity, AfterRemote, id), patch);
        r := Ok(response.value);
      } else {
        r := UpdateOne(id, patch);
      }
    }

    /** `deleteOne`: the server's answer is ignored; the mirror is renormalised
        and the entries with the argument's key are filtered out. A product
        re-projection that throws rejects the call before the mirror is written. */
    method DeleteOne(id: Value, remoteFailed: bool) returns (r: Result<(), Exception>)
      modifies this
      ensures match Renormalise(entity, old(mirror))
        case Err(x) => r == Err(x) && mirror == old(mirror)
        case Ok(rows) => r == Ok(()) && mirror == Survivors(entity, rows, id)
    {
      var rows := Renormalise(entity, mirror);
      if rows.Err? {
        return Err(rows.error);
      }
      mirror := Survivors(entity, rows.value, id);
      r := Ok(());
    }
  }

  /** After a delete, no entry of the mirror carries the deleted key. */
  lemma DeleteRemovesKey(e: Entity, rows: seq<Record>, id: Value)
    requires Renormalise(e, rows).Ok?
    ensures forall x :: x in Survivors(e, Renormalise(e, rows).value, id) ==>
      !StrictEquals(Get(x, KeyField(e)), id)
  {
  }

  /** Two product deletes in a row: the first leaves every category
      `undefined`, so the second throws as soon as an entry is left. */
  lemma SecondProductDeleteThrows(rows: seq<Record>, id: Value)
    requires forall i :: 0 <= i < |rows| ==> Get(rows[i], "category").Str?
    ensures Renormalise(Products, rows).Ok?
    ensures var left := Survivors(Products, Renormalise(Products, rows).value, id);
      left != [] ==> Renormalise(Products, left) == Err(TypeError)
  {
    ProjectAllLosesCategory(rows);
    var left := Survivors(Products, ProjectAll(Products, rows).value, id);
    if left != [] {
      ProjectAllFirstThrows(left);
    }
  }

  /** Re-projecting rows whose categories are names succeeds and leaves every
      category `undefined`. */
  lemma ProjectAllLosesCategory(rows: seq<Record>)
    requires forall i :: 0 <= i < |rows| ==> Get(rows[i], "category").Str?
    ensures ProjectAll(Products, rows).Ok?
    ensures forall x :: x in ProjectAll(Products, rows).value ==> Get(x, "category") == Undefined
  {
    forall i | 0 <= i < |rows|
      ensures Project(Products, rows[i]).Ok? && Get(Project(Products, rows[i]).value, "category") == Undefined
    {
      ReprojectLosesCategory(rows[i]);
    }
    var ps := ProjectAll(Products, rows).value;
    forall x | x in ps ensures Get(x, "category") == Undefined {
      var i :| 0 <= i < |ps| && ps[i] == x;
    }
  }

  /** Re-projecting products whose first category is `undefined` throws. */
  lemma ProjectAllFirstThrows(rows: seq<Record>)
    requires rows != [] && Get(rows[0], "category") == Undefined
    ensures ProjectAll(Products, rows) == Err(TypeError)
  {
  }
}
