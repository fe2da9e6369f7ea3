/** What one response costs: the usage paths and the sum over the meters
    (internal/spending/meter.go). */
module Meter {
  import opened Wrappers
  import opened Money

  /** A decoded JSON document. */
  datatype Doc = Number(text: string) | Elements(items: seq<Doc>) | Fields(members: map<string, Doc>) | Leaf

  /** How numerals are read: strconv.Atoi for an array index, big.Rat for a usage value. */
  datatype Readers = Readers(index: string -> Option<int>, number: string -> Option<Usage>)

  function Child(read: Readers, node: Doc, seg: string): Option<Doc> {
    match node
    case Fields(members) => if seg in members then Some(members[seg]) else None
    case Elements(items) =>
      var i := read.index(seg);
      if i.Some? && 0 <= i.value < |items| then Some(items[i.value]) else None
    case _ => None
  }

  /** The number at the end of the path. */
  function NumberAt(read: Readers, node: Doc, path: seq<string>): Option<string> {
    if path == [] then (if node.Number? then Some(node.text) else None)
    else
      match Child(read, node, path[0])
      case None => None
      case Some(next) => NumberAt(read, next, path[1..])
  }

  /** The number at the end of a path, by the documents passed on the way. */
  lemma {:induction false} NumberAtIff(read: Readers, node: Doc, path: seq<string>)
    ensures forall text :: NumberAt(read, node, path) == Some(text) <==>
              exists trail: seq<Doc> :: Leads(read, node, path, trail) && trail[|path|] == Number(text)
    decreases |path|
  {
    if path == [] {
      assert Leads(read, node, path, [node]);
    } else {
      if Child(read, node, path[0]).Some? {
        var next := Child(read, node, path[0]).value;
        NumberAtIff(read, next, path[1..]);
        forall text, trail | Leads(read, next, path[1..], trail) && trail[|path| - 1] == Number(text)
          ensures Leads(read, node, path, [node] + trail) && ([node] + trail)[|path|] == Number(text)
        {
          LeadsOn(read, node, path, trail);
        }
      }
      forall trail | Leads(read, node, path, trail)
        ensures Child(read, node, path[0]) == Some(trail[1]) && Leads(read, trail[1], path[1..], trail[1..])
      {
        LeadsFrom(read, node, path, trail);
      }
    }
  }

  /** Each document of the trail is the member, or the element, that the path names in the one before. */
  ghost predicate Leads(read: Readers, node: Doc, path: seq<string>, trail: seq<Doc>) {
    && |trail| == |path| + 1 && trail[0] == node
    && forall k :: 0 <= k < |path| ==> Enters(read, trail[k], path[k], trail[k + 1])
  }

  predicate Enters(read: Readers, node: Doc, seg: string, next: Doc) {
    || (node.Fields? && seg in node.members && node.members[seg] == next)
    || (node.Elements? && read.index(seg).Some? && 0 <= read.index(seg).value < |node.items|
        && node.items[read.index(seg).value] == next)
  }

  lemma LeadsOn(read: Readers, node: Doc, path: seq<string>, trail: seq<Doc>)
    requires path != [] && Child(read, node, path[0]).Some?
    requires Leads(read, Child(read, node, path[0]).value, path[1..], trail)
    ensures Leads(read, node, path, [node] + trail)
  {
    var whole := [node] + trail;
    forall k | 0 <= k < |path| ensures Enters(read, whole[k], path[k], whole[k + 1]) {
      assert k > 0 ==> Enters(read, trail[k - 1], path[1..][k - 1], trail[k]);
    }
  }

  lemma LeadsFrom(read: Readers, node: Doc, path: seq<string>, trail: seq<Doc>)
    requires path != [] && Leads(read, node, path, trail)
    ensures Child(read, node, path[0]) == Some(trail[1]) && Leads(read, trail[1], path[1..], trail[1..])
  {
    assert Enters(read, trail[0], path[0], trail[1]);
    forall k | 0 <= k < |path| - 1 ensures Enters(read, trail[1..][k], path[1..][k], trail[1..][k + 1]) {
      assert Enters(read, trail[k + 1], path[k + 1], trail[k + 2]);
    }
  }

  datatype MeterError = NotJson | NoUsage | Costing(error: CostError)

  method ExtractUsage(read: Readers, doc: Option<Doc>, path: seq<string>) returns (r: Result<string, MeterError>)
    ensures doc.None? ==> r == Err(NotJson)
    ensures doc.Some? ==>
              var text := NumberAt(read, doc.value, path);
              r == if text.Some? then Ok(text.value) else Err(NoUsage)
  {
    if doc.None? {
      return Err(NotJson);
    }
    var cur := doc.value;
    for i := 0 to |path|
      invariant NumberAt(read, doc.value, path) == NumberAt(read, cur, path[i..])
    {
      assert path[i..][0] == path[i] && path[i..][1..] == path[i + 1..];
      match cur {
        case Fields(members) =>
          if path[i] !in members {
            return Err(NoUsage);
          }
          cur := members[path[i]];
        case Elements(items) =>
          var idx := read.index(path[i]);
          if idx.None? || idx.value < 0 || idx.value >= |items| {
            return Err(NoUsage);
          }
          cur := items[idx.value];
        case _ =>
          return Err(NoUsage);
      }
    }
    if !cur.Number? {
      return Err(NoUsage);
    }
    r := Ok(cur.text);
  }

  // ----- MeterResponse -------------------------------------------------------

  datatype Pricing = Pricing(path: seq<string>, price: MicroCents)

  /** The meter finds a usage it can charge for: a number, not negative, at a price not negative. */
  predicate Chargeable(read: Readers, doc: Doc, m: Pricing) {
    var text := NumberAt(read, doc, m.path);
    text.Some? && read.number(text.value).Some? && read.number(text.value).value.num >= 0 && m.price >= 0
  }

  /** In terms of the trail to the number, and of what the number costs. */
  lemma ChargeableIff(read: Readers, doc: Doc, m: Pricing)
    ensures Chargeable(read, doc, m) <==>
              && m.price >= 0
              && exists trail: seq<Doc> :: Leads(read, doc, m.path, trail) && trail[|m.path|].Number?
                                 && read.number(trail[|m.path|].text).Some?
                                 && read.number(trail[|m.path|].text).value.num >= 0
    ensures Chargeable(read, doc, m) ==>
              forall trail: seq<Doc> :: Leads(read, doc, m.path, trail) && trail[|m.path|].Number? ==>
                && read.number(trail[|m.path|].text).Some?
                && var u := read.number(trail[|m.path|].text).value;
                   ExactCost(read, doc, m) == (u.num * m.price as int) as real / u.den as real
  {
    NumberAtIff(read, doc, m.path);
    forall trail: seq<Doc> | Leads(read, doc, m.path, trail) && trail[|m.path|].Number?
      ensures NumberAt(read, doc, m.path) == Some(trail[|m.path|].text)
    {
      assert trail[|m.path|] == Number(trail[|m.path|].text);
    }
  }

  function ExactCost(read: Readers, doc: Doc, m: Pricing): real
    requires Chargeable(read, doc, m)
  {
    Exact(read.number(NumberAt(read, doc, m.path).value).value, m.price as int)
  }

  predicate AllChargeable(read: Readers, doc: Doc, meters: seq<Pricing>) {
    forall m :: m in meters ==> Chargeable(read, doc, m)
  }

  /** What the response costs, with nothing rounded. */
  function ExactTotal(read: Readers, doc: Doc, meters: seq<Pricing>): real
    requires AllChargeable(read, doc, meters)
  {
    if meters == [] then 0.0
    else
      assert meters[|meters| - 1] in meters;
      assert forall m :: m in meters[..|meters| - 1] ==> m in meters;
      ExactTotal(read, doc, meters[..|meters| - 1]) + ExactCost(read, doc, meters[|meters| - 1])
  }

  lemma TotalStep(read: Readers, doc: Doc, meters: seq<Pricing>, i: nat)
    requires i < |meters| && AllChargeable(read, doc, meters[..i]) && Chargeable(read, doc, meters[i])
    ensures AllChargeable(read, doc, meters[..i + 1])
    ensures ExactTotal(read, doc, meters[..i + 1])
         == ExactTotal(read, doc, meters[..i]) + ExactCost(read, doc, meters[i])
  {
    assert meters[..i + 1] == meters[..i] + [meters[i]];
    assert meters[..i + 1][..i] == meters[..i];
  }

  lemma {:induction false} CostsAddUp(read: Readers, doc: Doc, meters: seq<Pricing>, i: nat)
    requires AllChargeable(read, doc, meters) && i <= |meters|
    ensures AllChargeable(read, doc, meters[..i])
    ensures ExactTotal(read, doc, meters[..i]) <= ExactTotal(read, doc, meters)
    decreases |meters| - i
  {
    assert forall m :: m in meters[..i] ==> m in meters;
    if i < |meters| {
      assert meters[i] in meters;
      TotalStep(read, doc, meters, i);
      CostsAddUp(read, doc, meters, i + 1);
      var u := read.number(NumberAt(read, doc, meters[i].path).value).value;
      ExactIsNotNegative(u, meters[i].price as int);
    } else {
      assert meters[..i] == meters;
    }
  }

  lemma ExactIsNotNegative(u: Usage, price: int)
    requires u.num >= 0 && price >= 0
    ensures Exact(u, price) >= 0.0
  {
    CrossMultiply(-1, u.num * price, u.den);
    assert u.num * price >= 0;
  }

  /** A total never falls below the exact cost and exceeds it by less than one micro-cent a meter.
      There is no total only when a meter has nothing to charge for, or when int64 cannot hold a
      total that near the exact cost. */
  method MeterResponse(read: Readers, doc: Option<Doc>, meters: seq<Pricing>)
    returns (r: Result<MicroCents, MeterError>)
    ensures r.Ok? && meters == [] ==> r.value == 0
    ensures r.Ok? && meters != [] ==>
              && doc.Some? && AllChargeable(read, doc.value, meters)
              && ExactTotal(read, doc.value, meters) <= r.value as real
              && r.value as real < ExactTotal(read, doc.value, meters) + |meters| as real
    ensures r.Err? && doc.Some? && AllChargeable(read, doc.value, meters) ==>
              && r == Err(Costing(Overflow))
              && ExactTotal(read, doc.value, meters) + |meters| as real > MAX_AMOUNT as real
  {
    var total: MicroCents := 0;
    for i := 0 to |meters|
      invariant total >= 0 && (i == 0 ==> total == 0)
      invariant i > 0 ==> doc.Some?
      invariant i > 0 ==> AllChargeable(read, doc.value, meters[..i])
      invariant i > 0 ==>
                  var exact := ExactTotal(read, doc.value, meters[..i]);
                  exact <= total as real < exact + i as real
    {
      assert meters[i] in meters;
      var usage := ExtractUsage(read, doc, meters[i].path);
      if usage.Err? {
        return Err(usage.error);
      }
      var cost := Cost(read.number, usage.value, meters[i].price);
      if cost.Err? {
        if AllChargeable(read, doc.value, meters) {
          TotalStep(read, doc.value, meters, i);
          CostsAddUp(read, doc.value, meters, i + 1);
          CostsAddUp(read, doc.value, meters, i);
        }
        return Err(Costing(cost.error));
      }
      TotalStep(read, doc.value, meters, i);
      var sum := Add(total, cost.value);
      if sum.Err? {
        if AllChargeable(read, doc.value, meters) {
          CostsAddUp(read, doc.value, meters, i + 1);
        }
        return Err(Costing(sum.error));
      }
      total := sum.value;
    }
    assert meters[..|meters|] == meters;
    r := Ok(total);
  }

  // ----- a bill --------------------------------------------------------------

  /** A response that was metered, and what it came to. */
  datatype Bill = Bill(doc: Doc, meters: seq<Pricing>, total: MicroCents)

  /** What MeterResponse ensures of its total. */
  predicate Bracketed(read: Readers, b: Bill) {
    && AllChargeable(read, b.doc, b.meters)
    && ExactTotal(read, b.doc, b.meters) <= b.total as real <= ExactTotal(read, b.doc, b.meters) + |b.meters| as real
    && (b.meters != [] ==> b.total as real < ExactTotal(read, b.doc, b.meters) + |b.meters| as real)
  }

  /** MeterResponse, as a bill. */
  method MeterBill(read: Readers, doc: Doc, meters: seq<Pricing>) returns (r: Result<Bill, MeterError>)
    ensures r.Ok? ==> r.value.doc == doc && r.value.meters == meters && Bracketed(read, r.value)
    ensures r.Err? && AllChargeable(read, doc, meters) ==>
              ExactTotal(read, doc, meters) + |meters| as real > MAX_AMOUNT as real
  {
    var total := MeterResponse(read, Some(doc), meters);
    if total.Err? {
      return Err(total.error);
    }
    r := Ok(Bill(doc, meters, total.value));
  }
}
