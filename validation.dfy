/** The `validate` rule of each data source: an object schema whose fields
    are checked in order, each check giving the messages of its issues. A
    record is accepted exactly when no field reports an issue. */
module Validation {
  import opened JsValues
  import opened EntitySource

  /** One field's check. */
  datatype Rule =
    | NonEmptyText(required: string)                // a string, and not ""
    | Number(required: string)                      // a number
    | Fraction(required: string, below: string, above: string)  // a number in [0, 1]
    | Flag(required: string)                        // a boolean
    | OneOf(options: seq<string>, message: string)  // one of the listed strings

  /** An issue: the field it is about and its message. */
  datatype Issue = Issue(path: string, message: string)

  const ProductStatuses: seq<string> := ["in stock", "out of stock", "discontinued"]
  const OrderStatuses: seq<string> := ["Pending", "Processing", "Completed", "Cancelled"]

  /** The fields of each entity's schema, in declaration order. */
  function Schema(e: Entity): seq<(string, Rule)>
  {
    match e
    case Products => [
      ("name", NonEmptyText("Name is required")),
      ("category", NonEmptyText("Category is required")),
      ("price", Number("Price is required")),
      ("status", OneOf(ProductStatuses, "Invalid status")),
      ("createdAt", NonEmptyText("Created At is required"))]
    case Orders => [
      ("name", NonEmptyText("Name is required")),
      ("date", NonEmptyText("Date is required")),
      ("status", OneOf(OrderStatuses, "Invalid status"))]
    case Discounts => [
      ("name", NonEmptyText("Name is required")),
      ("percentage", Fraction("Percentage is required", "Percentage must be at least 0",
                              "Percentage must be at most 1")),
      ("requiresVerification", Flag("Requires Verification is required"))]
    case Categories => [
      ("name", NonEmptyText("Name is required")),
      ("createdAt", NonEmptyText("Created At is required"))]
    case Addons => [
      ("name", NonEmptyText("Name is required")),
      ("price", Number("Price is required")),
      ("isGlobal", Flag("Is Global is required")),
      ("available", Flag("Available is required"))]
  }

  /** The name the schema library gives a value's type in its messages. */
  function TypeName(v: Value): string
  {
    match v
    case Num(_) => "number"
    case NaN => "nan"
    case Str(_) => "string"
    case Bool(_) => "boolean"
    case Null => "null"
    case Undefined => "undefined"
    case Obj(_) => "object"
  }

  /** The messages one check reports: a missing value gives the field's
      required message, a value of another type a type mismatch; a type check
      that fails stops the field's further checks, while the two bounds of a
      fraction are both checked. */
  function Check(rule: Rule, v: Value): seq<string>
  {
    match rule
    case NonEmptyText(required) =>
      if v.Undefined? then [required]
      else if !v.Str? then ["Expected string, received " + TypeName(v)]
      else if v.s == "" then [required]
      else []
    case Number(required) =>
      if v.Undefined? then [required]
      else if !v.Num? then ["Expected number, received " + TypeName(v)]
      else []
    case Fraction(required, below, above) =>
      if v.Undefined? then [required]
      else if !v.Num? then ["Expected number, received " + TypeName(v)]
      else (if v.n < 0.0 then [below] else []) + (if v.n > 1.0 then [above] else [])
    case Flag(required) =>
      if v.Undefined? then [required]
      else if !v.Bool? then ["Expected boolean, received " + TypeName(v)]
      else []
    case OneOf(options, message) =>
      if v.Str? && v.s in options then [] else [message]
  }

  /** The reference definition of what a check accepts. */
  predicate Acceptable(rule: Rule, v: Value)
  {
    match rule
    case NonEmptyText(_) => v.Str? && |v.s| > 0
    case Number(_) => v.Num?
    case Fraction(_, _, _) => v.Num? && 0.0 <= v.n <= 1.0
    case Flag(_) => v.Bool?
    case OneOf(options, _) => exists i :: 0 <= i < |options| && v == Str(options[i])
  }

  /** A check reports nothing exactly when it accepts the value, and otherwise
      reports one message. */
  lemma CheckAccepts(rule: Rule, v: Value)
    ensures Check(rule, v) == [] <==> Acceptable(rule, v)
    ensures |Check(rule, v)| <= 1
  {
    if rule.OneOf? && v.Str? && v.s in rule.options {
      var i :| 0 <= i < |rule.options| && rule.options[i] == v.s;
      assert v == Str(rule.options[i]);
    }
  }

  /** The messages of one field, as issues about that field. */
  function Tagged(f: string, msgs: seq<string>): (r: seq<Issue>)
    ensures |r| == |msgs|
    ensures forall j :: 0 <= j < |msgs| ==> r[j] == Issue(f, msgs[j])
  {
    seq(|msgs|, j requires 0 <= j < |msgs| => Issue(f, msgs[j]))
  }

  /** The issues of the fields, in order. */
  function Issues(fields: seq<(string, Rule)>, r: Record): seq<Issue>
    decreases |fields|
  {
    if fields == [] then []
    else Tagged(fields[0].0, Check(fields[0].1, Get(r, fields[0].0))) + Issues(fields[1..], r)
  }

  lemma TaggedHas(f: string, msgs: seq<string>, m: string)
    requires m in msgs
    ensures Issue(f, m) in Tagged(f, msgs)
  {
    var j :| 0 <= j < |msgs| && msgs[j] == m;
    assert Tagged(f, msgs)[j] == Issue(f, m);
  }

  lemma TaggedFrom(f: string, msgs: seq<string>, x: Issue)
    requires x in Tagged(f, msgs)
    ensures x.path == f && x.message in msgs
  {
  }

  /** Every issue is a message of the check of a field of the schema, about that field. */
  lemma {:induction false} IssuesSound(fields: seq<(string, Rule)>, r: Record)
    ensures forall x :: x in Issues(fields, r) ==>
      exists i :: 0 <= i < |fields| && x.path == fields[i].0 && x.message in Check(fields[i].1, Get(r, fields[i].0))
    decreases |fields|
  {
    if fields != [] {
      IssuesSound(fields[1..], r);
      var head := Tagged(fields[0].0, Check(fields[0].1, Get(r, fields[0].0)));
      var rest := Issues(fields[1..], r);
      forall x | x in Issues(fields, r)
        ensures exists i :: 0 <= i < |fields| && x.path == fields[i].0 && x.message in Check(fields[i].1, Get(r, fields[i].0))
      {
        if x in head {
          TaggedFrom(fields[0].0, Check(fields[0].1, Get(r, fields[0].0)), x);
        } else {
          assert x in rest;
          var i :| 0 <= i < |fields[1..]| && x.path == fields[1..][i].0
            && x.message in Check(fields[1..][i].1, Get(r, fields[1..][i].0));
          assert fields[1..][i] == fields[i + 1];
        }
      }
    }
  }

  /** Every message a field's check reports is an issue about that field. */
  lemma {:induction false} IssuesComplete(fields: seq<(string, Rule)>, r: Record, i: int)
    requires 0 <= i < |fields|
    ensures forall m :: m in Check(fields[i].1, Get(r, fields[i].0)) ==> Issue(fields[i].0, m) in Issues(fields, r)
    decreases i
  {
    if i == 0 {
      forall m | m in Check(fields[0].1, Get(r, fields[0].0)) ensures Issue(fields[0].0, m) in Issues(fields, r) {
        TaggedHas(fields[0].0, Check(fields[0].1, Get(r, fields[0].0)), m);
      }
    } else {
      IssuesComplete(fields[1..], r, i - 1);
      assert fields[1..][i - 1] == fields[i];
    }
  }

  /** `validate`: the issues of the entity's schema. */
  function Validate(e: Entity, r: Record): seq<Issue>
  {
    Issues(Schema(e), r)
  }

  /** The issues of a schema are none exactly when its first field and the
      rest report none. */
  lemma IssuesCons(fields: seq<(string, Rule)>, r: Record)
    requires fields != []
    ensures Issues(fields, r) == [] <==>
      Check(fields[0].1, Get(r, fields[0].0)) == [] && Issues(fields[1..], r) == []
  {
    var msgs := Check(fields[0].1, Get(r, fields[0].0));
    if msgs != [] {
      assert Issues(fields, r)[0] == Tagged(fields[0].0, msgs)[0];
    }
  }

  lemma AcceptableCons(fields: seq<(string, Rule)>, r: Record)
    requires fields != []
    ensures (forall i :: 0 <= i < |fields| ==> Acceptable(fields[i].1, Get(r, fields[i].0))) <==>
      Acceptable(fields[0].1, Get(r, fields[0].0))
      && forall i :: 0 <= i < |fields[1..]| ==> Acceptable(fields[1..][i].1, Get(r, fields[1..][i].0))
  {
    if forall i :: 1 <= i < |fields| ==> Acceptable(fields[i].1, Get(r, fields[i].0)) {
      forall i | 0 <= i < |fields[1..]|
        ensures Acceptable(fields[1..][i].1, Get(r, fields[1..][i].0))
      {
        assert fields[1..][i] == fields[i + 1];
      }
    }
    if forall i :: 0 <= i < |fields[1..]| ==> Acceptable(fields[1..][i].1, Get(r, fields[1..][i].0)) {
      forall i | 1 <= i < |fields| ensures Acceptable(fields[i].1, Get(r, fields[i].0)) {
        assert fields[i] == fields[1..][i - 1];
      }
    }
  }

  /** No issue exactly when every field is acceptable. */
  lemma {:induction false} IssuesEmpty(fields: seq<(string, Rule)>, r: Record)
    ensures Issues(fields, r) == [] <==>
      forall i :: 0 <= i < |fields| ==> Acceptable(fields[i].1, Get(r, fields[i].0))
    decreases |fields|
  {
    if fields != [] {
      IssuesEmpty(fields[1..], r);
      CheckAccepts(fields[0].1, Get(r, fields[0].0));
      IssuesCons(fields, r);
      AcceptableCons(fields, r);
    }
  }

  /** A discount is accepted exactly when it has a non-empty name, a
      percentage between 0 and 1 inclusive, and a boolean verification flag. */
  lemma DiscountAccepted(r: Record)
    ensures Validate(Discounts, r) == [] <==>
      (Get(r, "name").Str? && Get(r, "name").s != "")
      && (Get(r, "percentage").Num? && 0.0 <= Get(r, "percentage").n <= 1.0)
      && Get(r, "requiresVerification").Bool?
  {
    IssuesEmpty(Schema(Discounts), r);
  }

  /** A percentage out of range reports exactly the bound it breaks. */
  lemma PercentageBounds(r: Record)
    requires Get(r, "percentage").Num?
    ensures var p := Get(r, "percentage").n;
      var msgs := Check(Schema(Discounts)[1].1, Get(r, "percentage"));
      (p < 0.0 ==> msgs == ["Percentage must be at least 0"])
      && (p > 1.0 ==> msgs == ["Percentage must be at most 1"])
      && (0.0 <= p <= 1.0 ==> msgs == [])
  {
  }

  /** An order is accepted exactly when it has a non-empty name and date and
      one of the four statuses. */
  lemma OrderAccepted(r: Record)
    ensures Validate(Orders, r) == [] <==>
      (Get(r, "name").Str? && Get(r, "name").s != "")
      && (Get(r, "date").Str? && Get(r, "date").s != "")
      && Get(r, "status") in {Str("Pending"), Str("Processing"), Str("Completed"), Str("Cancelled")}
  {
    var s := Schema(Orders);
    OrderRules();
    IssuesEmpty(s, r);
    OrderStatusAcceptable(Get(r, "status"));
    assert (forall i :: 0 <= i < |s| ==> Acceptable(s[i].1, Get(r, s[i].0))) <==>
      Acceptable(s[0].1, Get(r, s[0].0)) && Acceptable(s[1].1, Get(r, s[1].0))
      && Acceptable(s[2].1, Get(r, s[2].0));
  }

  lemma OrderRules()
    ensures |Schema(Orders)| == 3
    ensures Schema(Orders)[0] == ("name", NonEmptyText("Name is required"))
    ensures Schema(Orders)[1] == ("date", NonEmptyText("Date is required"))
    ensures Schema(Orders)[2] == ("status", OneOf(OrderStatuses, "Invalid status"))
  {
  }

  lemma OrderStatusAcceptable(v: Value)
    ensures Acceptable(OneOf(OrderStatuses, "Invalid status"), v) <==>
      v in {Str("Pending"), Str("Processing"), Str("Completed"), Str("Cancelled")}
  {
    if Acceptable(OneOf(OrderStatuses, "Invalid status"), v) {
      var i :| 0 <= i < |OrderStatuses| && v == Str(OrderStatuses[i]);
    }
    if v in {Str("Pending"), Str("Processing"), Str("Completed"), Str("Cancelled")} {
      assert v == Str(OrderStatuses[0]) || v == Str(OrderStatuses[1])
          || v == Str(OrderStatuses[2]) || v == Str(OrderStatuses[3]);
    }
  }

  /** A product is accepted exactly when name, category and creation date are
      non-empty strings, the price is a number and the status is one of the three. */
  lemma ProductAccepted(r: Record)
    ensures Validate(Products, r) == [] <==>
      (Get(r, "name").Str? && Get(r, "name").s != "")
      && (Get(r, "category").Str? && Get(r, "category").s != "")
      && Get(r, "price").Num?
      && Get(r, "status") in {Str("in stock"), Str("out of stock"), Str("discontinued")}
      && (Get(r, "createdAt").Str? && Get(r, "createdAt").s != "")
  {
    var s := Schema(Products);
    ProductRules();
    IssuesEmpty(s, r);
    ProductStatusAcceptable(Get(r, "status"));
    assert (forall i :: 0 <= i < |s| ==> Acceptable(s[i].1, Get(r, s[i].0))) <==>
      Acceptable(s[0].1, Get(r, s[0].0)) && Acceptable(s[1].1, Get(r, s[1].0))
      && Acceptable(s[2].1, Get(r, s[2].0)) && Acceptable(s[3].1, Get(r, s[3].0))
      && Acceptable(s[4].1, Get(r, s[4].0));
  }

  lemma ProductRules()
    ensures |Schema(Products)| == 5
    ensures Schema(Products)[0] == ("name", NonEmptyText("Name is required"))
    ensures Schema(Products)[1] == ("category", NonEmptyText("Category is required"))
    ensures Schema(Products)[2] == ("price", Number("Price is required"))
    ensures Schema(Products)[3] == ("status", OneOf(ProductStatuses, "Invalid status"))
    ensures Schema(Products)[4] == ("createdAt", NonEmptyText("Created At is required"))
  {
  }

  lemma ProductStatusAcceptable(v: Value)
    ensures Acceptable(OneOf(ProductStatuses, "Invalid status"), v) <==>
      v in {Str("in stock"), Str("out of stock"), Str("discontinued")}
  {
    if Acceptable(OneOf(ProductStatuses, "Invalid status"), v) {
      var i :| 0 <= i < |ProductStatuses| && v == Str(ProductStatuses[i]);
    }
    if v in {Str("in stock"), Str("out of stock"), Str("discontinued")} {
      assert v == Str(ProductStatuses[0]) || v == Str(ProductStatuses[1]) || v == Str(ProductStatuses[2]);
    }
  }

  /** A category is accepted exactly when name and creation date are non-empty strings. */
  lemma CategoryAccepted(r: Record)
    ensures Validate(Categories, r) == [] <==>
      (Get(r, "name").Str? && Get(r, "name").s != "")
      && (Get(r, "createdAt").Str? && Get(r, "createdAt").s != "")
  {
    IssuesEmpty(Schema(Categories), r);
  }

  /** An addon is accepted exactly when it has a non-empty name, a numeric
      price and boolean `isGlobal` and `available`. */
  lemma AddonAccepted(r: Record)
    ensures Validate(Addons, r) == [] <==>
      (Get(r, "name").Str? && Get(r, "name").s != "")
      && Get(r, "price").Num?
      && Get(r, "isGlobal").Bool?
      && Get(r, "available").Bool?
  {
    var s := Schema(Addons);
    AddonRules();
    IssuesEmpty(s, r);
    assert (forall i :: 0 <= i < |s| ==> Acceptable(s[i].1, Get(r, s[i].0))) <==>
      Acceptable(s[0].1, Get(r, s[0].0)) && Acceptable(s[1].1, Get(r, s[1].0))
      && Acceptable(s[2].1, Get(r, s[2].0)) && Acceptable(s[3].1, Get(r, s[3].0));
  }

  /** A price held as text, as the add-on forms hold it, is rejected by `validate`. */
  lemma TextPriceRejected(r: Record)
    requires Get(r, "price").Str?
    ensures Issue("price", "Expected number, received string") in Validate(Addons, r)
  {
    AddonRules();
    PriceMismatch(Get(r, "price"));
    ReportedAt(Schema(Addons), r, 1, "Expected number, received string");
  }

  lemma AddonRules()
    ensures |Schema(Addons)| == 4
    ensures Schema(Addons)[0] == ("name", NonEmptyText("Name is required"))
    ensures Schema(Addons)[1] == ("price", Number("Price is required"))
    ensures Schema(Addons)[2] == ("isGlobal", Flag("Is Global is required"))
    ensures Schema(Addons)[3] == ("available", Flag("Available is required"))
  {
  }

  /** A field whose check reports `msg` has that issue in the result. */
  lemma ReportedAt(fields: seq<(string, Rule)>, r: Record, i: int, msg: string)
    requires 0 <= i < |fields| && msg in Check(fields[i].1, Get(r, fields[i].0))
    ensures Issue(fields[i].0, msg) in Issues(fields, r)
  {
    IssuesComplete(fields, r, i);
  }

  lemma PriceMismatch(v: Value)
    requires v.Str?
    ensures Check(Number("Price is required"), v) == ["Expected number, received string"]
  {
    assert "Expected number, received " + "string" == "Expected number, received string";
  }
}
