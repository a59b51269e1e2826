/**
 The price comparison between the local tables and the upstream channels
 (`buildDifferences` in controller/ratio_sync.go).

 The code makes several passes: collect the models, judge the confidence, build
 every item, find the channels that differ anywhere, prune. The passes are shown
 to compute one table defined cell by cell. Floating-point numbers are reals.
 */
module PricingDiff {

  // ---------------------------------------------------------------------------
  // Data
  // ---------------------------------------------------------------------------

  datatype Model = Model(text: string)
  datatype Name = Name(text: string)

  datatype Field =
    | ModelRatio | CompletionRatio | CacheRatio | CreateCacheRatio | ImageRatio
    | AudioRatio | AudioCompletionRatio | ModelPrice | BillingMode | BillingExpr

  const FIELDS: seq<Field> := [
    ModelRatio, CompletionRatio, CacheRatio, CreateCacheRatio, ImageRatio,
    AudioRatio, AudioCompletionRatio, ModelPrice, BillingMode, BillingExpr]

  predicate Numeric(field: Field) {
    field != BillingMode && field != BillingExpr
  }

  lemma EveryField(field: Field)
    ensures field in FIELDS
  {
    match field
    case ModelRatio => assert FIELDS[0] == field;
    case CompletionRatio => assert FIELDS[1] == field;
    case CacheRatio => assert FIELDS[2] == field;
    case CreateCacheRatio => assert FIELDS[3] == field;
    case ImageRatio => assert FIELDS[4] == field;
    case AudioRatio => assert FIELDS[5] == field;
    case AudioCompletionRatio => assert FIELDS[6] == field;
    case ModelPrice => assert FIELDS[7] == field;
    case BillingMode => assert FIELDS[8] == field;
    case BillingExpr => assert FIELDS[9] == field;
  }

  /** A decoded value; `Null` is also what a missing entry counts as. */
  datatype Value = Null | Num(x: real) | Int(n: int) | Str(s: string)

  const SAME := Str("same")

  type Table = map<Model, Value>
  type Data = map<Field, Table>

  datatype Channel = Channel(name: Name, data: Data)
  datatype Input = Input(local: Data, channels: seq<Channel>)
  datatype Item = Item(current: Value, upstreams: map<Name, Value>, confidence: map<Name, bool>)

  type Differences = map<Model, map<Field, Item>>

  function TableOf(data: Data, field: Field): Table {
    if field in data then data[field] else map[]
  }

  // ---------------------------------------------------------------------------
  // Comparing values
  // ---------------------------------------------------------------------------

  const EPSILON: real := 0.000000001

  predicate NearlyEqual(a: real, b: real) {
    if a > b then a - b < EPSILON else b - a < EPSILON
  }

  /** Two numbers are compared up to a tolerance, everything else exactly. */
  predicate ValuesEqual(a: Value, b: Value) {
    if a.Num? && b.Num? then NearlyEqual(a.x, b.x) else a == b
  }

  function AsFloat(v: Value): (r: Value)
    ensures r.Num? <==> v.Num? || v.Int?
  {
    if v.Int? then Num(v.n as real) else v
  }

  function Normalize(field: Field, v: Value): Value {
    if Numeric(field) then AsFloat(v) else v
  }

  /** The local value, `Null` if there is none. */
  function Local(input: Input, m: Model, field: Field): Value {
    var table := TableOf(input.local, field);
    if m in table then Normalize(field, table[m]) else Null
  }

  predicate Has(channel: Channel, m: Model, field: Field) {
    m in TableOf(channel.data, field)
  }

  function Upstream(channel: Channel, m: Model, field: Field): Value
    requires Has(channel, m, field)
  {
    Normalize(field, TableOf(channel.data, field)[m])
  }

  // ---------------------------------------------------------------------------
  // One cell, one item
  // ---------------------------------------------------------------------------

  predicate Real(cell: Value) {
    cell != Null && cell != SAME
  }

  /** What a channel shows: its value, "same" when it agrees, nothing when it has no value. */
  function CellOf(local: Value, channel: Channel, m: Model, field: Field): Value {
    if Has(channel, m, field) then
      var v := Upstream(channel, m, field);
      if ValuesEqual(local, v) then SAME else v
    else if local == Null then SAME else Null
  }

  /** The channel makes the item a difference. */
  predicate Differs(local: Value, channel: Channel, m: Model, field: Field) {
    && Has(channel, m, field)
    && !ValuesEqual(local, Upstream(channel, m, field))
    && (local == Null ==> Real(Upstream(channel, m, field)))
  }

  /** The 37.5 and 1 that an unconfigured pricing endpoint answers. */
  predicate Suspicious(channel: Channel, m: Model) {
    && Has(channel, m, ModelRatio) && Has(channel, m, CompletionRatio)
    && var ratio, completion := AsFloat(TableOf(channel.data, ModelRatio)[m]),
        AsFloat(TableOf(channel.data, CompletionRatio)[m]);
    && ratio.Num? && completion.Num? && NearlyEqual(ratio.x, 37.5) && NearlyEqual(completion.x, 1.0)
  }

  /** Cells by channel name; of two channels with one name the later counts. */
  function Cells(channels: seq<Channel>, local: Value, m: Model, field: Field): map<Name, Value> {
    if channels == [] then map[]
    else
      var n := |channels| - 1;
      Cells(channels[..n], local, m, field)[channels[n].name := CellOf(local, channels[n], m, field)]
  }

  function Trust(channels: seq<Channel>, m: Model): map<Name, bool> {
    if channels == [] then map[]
    else
      var n := |channels| - 1;
      Trust(channels[..n], m)[channels[n].name := !Suspicious(channels[n], m)]
  }

  function Names(channels: seq<Channel>): set<Name> {
    set i | 0 <= i < |channels| :: channels[i].name
  }

  predicate Included(input: Input, m: Model, field: Field) {
    var local := Local(input, m, field);
    if local != Null then exists i :: 0 <= i < |input.channels| && Differs(local, input.channels[i], m, field)
    else exists i :: 0 <= i < |input.channels| && Has(input.channels[i], m, field)
  }

  function FullItem(input: Input, m: Model, field: Field): Item {
    var local := Local(input, m, field);
    Item(local, Cells(input.channels, local, m, field), Trust(input.channels, m))
  }

  function FullItems(input: Input, m: Model): map<Field, Item> {
    map field | field in FIELDS && Included(input, m, field) :: FullItem(input, m, field)
  }

  /** Every model any table mentions. */
  ghost predicate Known(input: Input, m: Model) {
    Mentions(input.local, m) || exists i :: 0 <= i < |input.channels| && Mentions(input.channels[i].data, m)
  }

  ghost predicate Mentions(data: Data, m: Model) {
    exists field :: m in TableOf(data, field)
  }

  // ---------------------------------------------------------------------------
  // The passes
  // ---------------------------------------------------------------------------

  /** Pass 1: collect the models. */
  method CollectModels(input: Input) returns (all: set<Model>)
    ensures forall m :: m in all <==> Known(input, m)
  {
    all := Mentioned(input.local);
    var i := 0;
    while i < |input.channels|
      invariant 0 <= i <= |input.channels|
      invariant forall m :: m in all <==>
                  Mentions(input.local, m) || exists j :: 0 <= j < i && Mentions(input.channels[j].data, m)
    {
      hide Mentions;
      var more := Mentioned(input.channels[i].data);
      all := all + more;
      i := i + 1;
    }
  }

  method Mentioned(data: Data) returns (models: set<Model>)
    ensures forall m :: m in models <==> Mentions(data, m)
  {
    models := {};
    var i := 0;
    while i < |FIELDS|
      invariant 0 <= i <= |FIELDS|
      invariant forall m :: m in models <==> exists j :: 0 <= j < i && m in TableOf(data, FIELDS[j])
    {
      models := models + TableOf(data, FIELDS[i]).Keys;
      i := i + 1;
    }
    forall m
      ensures m in models <==> Mentions(data, m)
    {
      if field :| m in TableOf(data, field) {
        EveryField(field);
        var j :| 0 <= j < |FIELDS| && FIELDS[j] == field;
        assert m in TableOf(data, FIELDS[j]);
      }
    }
  }

  type Confidence = map<Name, map<Model, bool>>

  /** Pass 2: which channels to trust for which models. */
  ghost predicate Judged(confidence: Confidence, channels: seq<Channel>, models: set<Model>) {
    && confidence.Keys == Names(channels)
    && forall name, m :: name in confidence && m in models ==>
         m in confidence[name] && name in Trust(channels, m) && confidence[name][m] == Trust(channels, m)[name]
  }

  method Judge(channels: seq<Channel>, models: set<Model>) returns (confidence: Confidence)
    ensures Judged(confidence, channels, models)
  {
    confidence := map[];
    assert channels[..0] == [];
    var i := 0;
    while i < |channels|
      invariant 0 <= i <= |channels| && Judged(confidence, channels[..i], models)
    {
      var table := JudgeChannel(channels[i], models);
      JudgedNext(confidence, channels, i, models, table);
      confidence := confidence[channels[i].name := table];
      i := i + 1;
    }
    assert channels[..i] == channels;
  }

  lemma JudgedNext(confidence: Confidence, channels: seq<Channel>, i: nat, models: set<Model>, table: map<Model, bool>)
    requires i < |channels| && Judged(confidence, channels[..i], models)
    requires forall m :: m in models ==> m in table && table[m] == !Suspicious(channels[i], m)
    ensures Judged(confidence[channels[i].name := table], channels[..i + 1], models)
  {
    hide Suspicious;
    assert channels[..i + 1][..i] == channels[..i];
    NamesNext(channels, i);
  }

  method JudgeChannel(channel: Channel, models: set<Model>) returns (table: map<Model, bool>)
    ensures table.Keys == models && forall m :: m in models ==> table[m] == !Suspicious(channel, m)
  {
    table := map[];
    var ratios, completions := TableOf(channel.data, ModelRatio), TableOf(channel.data, CompletionRatio);
    var pending := models;
    while pending != {}
      invariant pending <= models && table.Keys == models - pending
      invariant forall m :: m in table ==> table[m] == !Suspicious(channel, m)
      decreases pending
    {
      var m :| m in pending;
      table := table[m := true];
      if |ratios| > 0 && |completions| > 0 && m in ratios && m in completions {
        var ratio, completion := AsFloat(ratios[m]), AsFloat(completions[m]);
        if ratio.Num? && completion.Num? && NearlyEqual(ratio.x, 37.5) && NearlyEqual(completion.x, 1.0) {
          table := table[m := false];
        }
      }
      assert m in ratios ==> |ratios| > 0;
      assert m in completions ==> |completions| > 0;
      pending := pending - {m};
    }
  }

  /** Reading the confidence map; a missing entry reads as false. */
  function Confident(confidence: Confidence, name: Name, m: Model): bool {
    name in confidence && m in confidence[name] && confidence[name][m]
  }

  function Trusted(confidence: Confidence, channels: seq<Channel>, m: Model): map<Name, bool> {
    map name | name in Names(channels) :: Confident(confidence, name, m)
  }

  lemma TrustedIsTrust(confidence: Confidence, channels: seq<Channel>, models: set<Model>, m: Model)
    requires Judged(confidence, channels, models) && m in models
    ensures Trusted(confidence, channels, m) == Trust(channels, m)
  {
    TrustKeys(channels, m);
    hide Trust, Names;
  }

  lemma TrustedNext(confidence: Confidence, channels: seq<Channel>, i: nat, m: Model)
    requires i < |channels|
    ensures Trusted(confidence, channels[..i + 1], m)
         == Trusted(confidence, channels[..i], m)[channels[i].name := Confident(confidence, channels[i].name, m)]
  {
    NamesNext(channels, i);
    hide Names, Confident;
  }

  /** Pass 3, innermost loop: compare the channels on one field of one model. */
  method CompareChannels(channels: seq<Channel>, localValue: Value, m: Model, field: Field, confidence: Confidence)
    returns (upstreams: map<Name, Value>, trusted: map<Name, bool>, hasUpstream: bool, hasDifference: bool)
    ensures upstreams == Cells(channels, localValue, m, field) && trusted == Trusted(confidence, channels, m)
    ensures hasUpstream <==> exists j :: 0 <= j < |channels| && Has(channels[j], m, field)
    ensures hasDifference <==> exists j :: 0 <= j < |channels| && Differs(localValue, channels[j], m, field)
  {
    upstreams, trusted, hasUpstream, hasDifference := map[], map[], false, false;
    var i := 0;
    assert channels[..0] == [];
    CellsNone(confidence, localValue, m, field);
    hide *;
    while i < |channels|
      invariant 0 <= i <= |channels|
      invariant upstreams == Cells(channels[..i], localValue, m, field)
      invariant trusted == Trusted(confidence, channels[..i], m)
      invariant hasUpstream <==> exists j :: 0 <= j < i && Has(channels[j], m, field)
      invariant hasDifference <==> exists j :: 0 <= j < i && Differs(localValue, channels[j], m, field)
    {
      var cell, has, differs := CompareOne(localValue, channels[i], m, field);
      CellsNext(channels, i, localValue, m, field);
      TrustedNext(confidence, channels, i, m);
      upstreams := upstreams[channels[i].name := cell];
      trusted := trusted[channels[i].name := Confident(confidence, channels[i].name, m)];
      hasUpstream, hasDifference := hasUpstream || has, hasDifference || differs;
      i := i + 1;
    }
    assert channels[..i] == channels;
  }

  method Compare(input: Input, m: Model, field: Field, confidence: Confidence, ghost models: set<Model>)
    returns (item: Item, wanted: bool)
    requires m in models && Judged(confidence, input.channels, models)
    ensures item == FullItem(input, m, field)
    ensures wanted <==> Included(input, m, field)
  {
    var localTable := TableOf(input.local, field);
    var localValue := if m in localTable then Normalize(field, localTable[m]) else Null;
    var upstreams, trusted, hasUpstream, hasDifference :=
        CompareChannels(input.channels, localValue, m, field, confidence);
    TrustedIsTrust(confidence, input.channels, models, m);
    hide Cells, Trust, Trusted, Has, Differs, Judged, Normalize;
    wanted := if localValue != Null then hasDifference else hasUpstream;
    item := Item(localValue, upstreams, trusted);
  }

  lemma CellsNone(confidence: Confidence, local: Value, m: Model, field: Field)
    ensures Cells([], local, m, field) == map[] && Trusted(confidence, [], m) == map[]
  {
  }

  lemma CellsNext(channels: seq<Channel>, i: nat, local: Value, m: Model, field: Field)
    requires i < |channels|
    ensures Cells(channels[..i + 1], local, m, field)
         == Cells(channels[..i], local, m, field)[channels[i].name := CellOf(local, channels[i], m, field)]
  {
    assert channels[..i + 1][..i] == channels[..i];
  }

  method CompareOne(localValue: Value, channel: Channel, m: Model, field: Field)
      returns (cell: Value, has: bool, differs: bool)
    ensures cell == CellOf(localValue, channel, m, field)
    ensures has == Has(channel, m, field) && differs == Differs(localValue, channel, m, field)
  {
    cell, has, differs := Null, false, false;
    var table := TableOf(channel.data, field);
    if m in table {
      cell, has := Normalize(field, table[m]), true;
      if localValue != Null && !ValuesEqual(localValue, cell) {
        differs := true;
      } else if ValuesEqual(localValue, cell) {
        cell := SAME;
      }
    }
    if cell == Null && localValue == Null {
      cell := SAME;
    }
    if localValue == Null && cell != Null && cell != SAME {
      differs := true;
    }
  }

  lemma NamesNext(channels: seq<Channel>, i: nat)
    requires i < |channels|
    ensures Names(channels[..i + 1]) == Names(channels[..i]) + {channels[i].name}
    ensures channels[i].name in Names(channels)
  {
    forall name
      ensures name in Names(channels[..i + 1]) <==> name in Names(channels[..i]) + {channels[i].name}
    {
      if name in Names(channels[..i]) {
        var j :| 0 <= j < i && channels[..i][j].name == name;
        assert channels[..i + 1][j].name == name;
      }
      assert channels[..i + 1][i].name == channels[i].name;
    }
  }

  lemma {:induction false} TrustKeys(channels: seq<Channel>, m: Model)
    ensures Trust(channels, m).Keys == Names(channels)
  {
    if channels != [] {
      var n := |channels| - 1;
      TrustKeys(channels[..n], m);
      NamesNext(channels, n);
      assert channels[..n + 1] == channels;
    }
  }

  /** Pass 3, per model: the fields that differ. */
  method BuildModel(input: Input, m: Model, confidence: Confidence, ghost models: set<Model>)
      returns (items: map<Field, Item>)
    requires m in models && Judged(confidence, input.channels, models)
    ensures items == FullItems(input, m)
  {
    items := map[];
    var i := 0;
    hide *;
    while i < |FIELDS|
      invariant 0 <= i <= |FIELDS|
      invariant forall field :: field in items <==> field in FIELDS[..i] && Included(input, m, field)
      invariant forall field :: field in items ==> items[field] == FullItem(input, m, field)
    {
      var item, wanted := Compare(input, m, FIELDS[i], confidence, models);
      assert FIELDS[..i + 1] == FIELDS[..i] + [FIELDS[i]];
      if wanted {
        items := items[FIELDS[i] := item];
      }
      i := i + 1;
    }
    assert FIELDS[..i] == FIELDS;
    FullItemsAre(input, m, items);
  }

  lemma FullItemsAre(input: Input, m: Model, items: map<Field, Item>)
    requires forall field :: field in items <==> field in FIELDS && Included(input, m, field)
    requires forall field :: field in items ==> items[field] == FullItem(input, m, field)
    ensures items == FullItems(input, m)
  {
    hide Included, FullItem;
  }

  /** All items before pruning. */
  ghost predicate Built(differences: Differences, input: Input) {
    && (forall m :: m in differences <==> Known(input, m) && FullItems(input, m) != map[])
    && (forall m :: m in differences ==> differences[m] == FullItems(input, m))
  }

  method Build(input: Input, models: set<Model>, confidence: Confidence) returns (differences: Differences)
    requires Judged(confidence, input.channels, models) && forall m :: m in models <==> Known(input, m)
    ensures Built(differences, input)
  {
    differences := map[];
    var pending := models;
    hide Known, FullItems, Judged;
    while pending != {}
      invariant pending <= models
      invariant forall m :: m in differences <==> m in models - pending && FullItems(input, m) != map[]
      invariant forall m :: m in differences ==> differences[m] == FullItems(input, m)
      decreases pending
    {
      var m :| m in pending;
      var items := BuildModel(input, m, confidence, models);
      if items != map[] {
        differences := differences[m := items];
      }
      pending := pending - {m};
    }
  }

  /** The channel shows a real value somewhere. */
  ghost predicate HasDiff(differences: Differences, name: Name) {
    exists m, field :: RealAt(differences, m, field, name)
  }

  predicate RealAt(differences: Differences, m: Model, field: Field, name: Name) {
    m in differences && field in differences[m] && name in differences[m][field].upstreams
    && Real(differences[m][field].upstreams[name])
  }

  /** Pass 4: the channels that differ anywhere. */
  method ChannelsWithDiff(differences: Differences) returns (names: set<Name>)
    ensures forall name :: name in names <==> HasDiff(differences, name)
  {
    names := {};
    var pending := differences.Keys;
    while pending != {}
      invariant pending <= differences.Keys
      invariant forall name :: name in names <==>
                  exists m, field :: m in differences.Keys - pending && RealAt(differences, m, field, name)
      decreases pending
    {
      var m :| m in pending;
      var more := ModelDiffs(differences[m]);
      forall name
        ensures name in more <==> exists field :: RealAt(differences, m, field, name)
      {
        if name in more {
          var field :| field in differences[m] && name in differences[m][field].upstreams
              && Real(differences[m][field].upstreams[name]);
          assert RealAt(differences, m, field, name);
        }
      }
      hide RealAt;
      names := names + more;
      pending := pending - {m};
    }
  }

  method ModelDiffs(items: map<Field, Item>) returns (names: set<Name>)
    ensures forall name :: name in names <==>
              exists field :: field in items && name in items[field].upstreams && Real(items[field].upstreams[name])
  {
    names := {};
    var pending := items.Keys;
    while pending != {}
      invariant pending <= items.Keys
      invariant forall name :: name in names <==>
                  exists field :: field in items.Keys - pending && name in items[field].upstreams
                      && Real(items[field].upstreams[name])
      decreases pending
    {
      var field :| field in pending;
      var more := ItemDiffs(items[field].upstreams);
      hide Real;
      names := names + more;
      pending := pending - {field};
    }
  }

  method ItemDiffs(upstreams: map<Name, Value>) returns (names: set<Name>)
    ensures forall name :: name in names <==> name in upstreams && Real(upstreams[name])
  {
    names := {};
    var pending := upstreams.Keys;
    while pending != {}
      invariant pending <= upstreams.Keys
      invariant forall name :: name in names <==> name in upstreams.Keys - pending && Real(upstreams[name])
      decreases pending
    {
      var name :| name in pending;
      if upstreams[name] != Null && upstreams[name] != SAME {
        names := names + {name};
      }
      pending := pending - {name};
    }
  }

  /** The item without the channels that differ nowhere. */
  function Restrict(item: Item, names: set<Name>): Item {
    Item(item.current,
         map name | name in item.upstreams && name in names :: item.upstreams[name],
         map name | name in item.confidence && (name !in item.upstreams || name in names) :: item.confidence[name])
  }

  predicate AllSame(upstreams: map<Name, Value>) {
    forall name :: name in upstreams ==> upstreams[name] == SAME
  }

  /** Pass 5, one item: drop channels; the item goes when none is left or all agree. */
  method PruneItem(item: Item, names: set<Name>) returns (r: Item, keep: bool)
    ensures r == Restrict(item, names)
    ensures keep <==> !AllSame(r.upstreams)
  {
    var upstreams, confidence := item.upstreams, item.confidence;
    var pending := item.upstreams.Keys;
    while pending != {}
      invariant pending <= item.upstreams.Keys
      invariant forall name :: name in upstreams <==> name in item.upstreams && (name in pending || name in names)
      invariant forall name :: name in upstreams ==> upstreams[name] == item.upstreams[name]
      invariant forall name :: name in confidence <==>
                  name in item.confidence && (name !in item.upstreams || name in pending || name in names)
      invariant forall name :: name in confidence ==> confidence[name] == item.confidence[name]
      decreases pending
    {
      var name :| name in pending;
      if name !in names {
        upstreams, confidence := upstreams - {name}, confidence - {name};
      }
      pending := pending - {name};
    }
    r := Item(item.current, upstreams, confidence);
    assert r == Restrict(item, names);
    var allSame := CheckSame(upstreams);
    keep := !(|upstreams| == 0 || allSame);
    if |upstreams| == 0 {
      assert upstreams == map[];
    }
  }

  method CheckSame(upstreams: map<Name, Value>) returns (allSame: bool)
    ensures allSame == AllSame(upstreams)
  {
    var pending := upstreams.Keys;
    while pending != {}
      invariant pending <= upstreams.Keys
      invariant forall name :: name in upstreams.Keys - pending ==> upstreams[name] == SAME
      decreases pending
    {
      var name :| name in pending;
      if upstreams[name] != SAME {
        return false;
      }
      pending := pending - {name};
    }
    return true;
  }

  function PrunedItems(items: map<Field, Item>, names: set<Name>): map<Field, Item> {
    map field | field in items && !AllSame(Restrict(items[field], names).upstreams) :: Restrict(items[field], names)
  }

  method PruneModel(items: map<Field, Item>, names: set<Name>) returns (r: map<Field, Item>)
    ensures r == PrunedItems(items, names)
  {
    r := items;
    var pending := items.Keys;
    hide Restrict, AllSame;
    while pending != {}
      invariant pending <= items.Keys
      invariant forall field :: field in r <==>
                  field in items && (field in pending || !AllSame(Restrict(items[field], names).upstreams))
      invariant forall field :: field in r ==>
          r[field] == if field in pending then items[field] else Restrict(items[field], names)
      decreases pending
    {
      var field :| field in pending;
      var item, keep := PruneItem(items[field], names);
      if keep {
        r := r[field := item];
      } else {
        r := r - {field};
      }
      pending := pending - {field};
    }
  }

  function Pruned(differences: Differences, names: set<Name>): Differences {
    map m | m in differences && PrunedItems(differences[m], names) != map[] :: PrunedItems(differences[m], names)
  }

  method Prune(differences: Differences, names: set<Name>) returns (r: Differences)
    ensures r == Pruned(differences, names)
  {
    r := differences;
    var pending := differences.Keys;
    hide PrunedItems;
    while pending != {}
      invariant pending <= differences.Keys
      invariant forall m :: m in r <==>
          m in differences && (m in pending || PrunedItems(differences[m], names) != map[])
      invariant forall m :: m in r ==>
          r[m] == if m in pending then differences[m] else PrunedItems(differences[m], names)
      decreases pending
    {
      var m :| m in pending;
      var items := PruneModel(differences[m], names);
      if |items| == 0 {
        assert items == map[];
        r := r - {m};
      } else {
        r := r[m := items];
      }
      pending := pending - {m};
    }
  }

  // ---------------------------------------------------------------------------
  // The table the passes compute, cell by cell
  // ---------------------------------------------------------------------------

  /** The channel shows a real value for some field of some model that is included. */
  ghost predicate DiffersSomewhere(input: Input, name: Name) {
    exists m, field :: DiffersAt(input, m, field, name)
  }

  ghost predicate DiffersAt(input: Input, m: Model, field: Field, name: Name) {
    && Included(input, m, field) && name in FullItem(input, m, field).upstreams
    && Real(FullItem(input, m, field).upstreams[name])
  }

  /** An included item is shown when some channel that differs somewhere does not agree here. */
  ghost predicate Shown(input: Input, m: Model, field: Field) {
    && Included(input, m, field)
    && exists name :: DiffersSomewhere(input, name) && name in FullItem(input, m, field).upstreams
                      && FullItem(input, m, field).upstreams[name] != SAME
  }

  /** The result, one cell at a time. */
  ghost predicate IsTable(r: Differences, input: Input) {
    && (forall m :: m in r <==> exists field :: Shown(input, m, field))
    && (forall m, field :: m in r ==> (field in r[m] <==> Shown(input, m, field)))
    && (forall m, field :: m in r && field in r[m] ==> IsRestricted(r[m][field], input, m, field))
  }

  ghost predicate IsRestricted(item: Item, input: Input, m: Model, field: Field) {
    var full := FullItem(input, m, field);
    && item.current == full.current
    && (forall name :: name in item.upstreams <==> name in full.upstreams && DiffersSomewhere(input, name))
    && (forall name :: name in item.upstreams ==> item.upstreams[name] == full.upstreams[name])
    && item.confidence.Keys == item.upstreams.Keys
    && (forall name :: name in item.confidence ==>
        name in full.confidence && item.confidence[name] == full.confidence[name])
  }

  /** All passes together compute the table. */
  method BuildDifferences(input: Input) returns (r: Differences)
    ensures IsTable(r, input)
  {
    var models := CollectModels(input);
    var confidence := Judge(input.channels, models);
    var differences := Build(input, models, confidence);
    var names := ChannelsWithDiff(differences);
    r := Prune(differences, names);
    PrunedIsTable(differences, names, input);
  }

  lemma HasMentions(channel: Channel, m: Model, field: Field)
    requires Has(channel, m, field)
    ensures Mentions(channel.data, m)
  {
    assert m in TableOf(channel.data, field);
  }

  lemma IncludedKnown(input: Input, m: Model, field: Field)
    requires Included(input, m, field)
    ensures Known(input, m)
  {
    var i :| 0 <= i < |input.channels| && Has(input.channels[i], m, field);
    HasMentions(input.channels[i], m, field);
    assert Mentions(input.channels[i].data, m);
  }

  /** Before pruning, exactly the included items are there. */
  lemma BuiltAt(differences: Differences, input: Input, m: Model, field: Field)
    requires Built(differences, input)
    ensures m in differences && field in differences[m] <==> Included(input, m, field)
    ensures m in differences && field in differences[m] ==> differences[m][field] == FullItem(input, m, field)
  {
    EveryField(field);
    if Included(input, m, field) {
      IncludedKnown(input, m, field);
      assert field in FullItems(input, m);
    }
    hide Included, FullItem, Known;
  }

  lemma RealAtIff(differences: Differences, input: Input, m: Model, field: Field, name: Name)
    requires Built(differences, input)
    ensures RealAt(differences, m, field, name) <==> DiffersAt(input, m, field, name)
  {
    BuiltAt(differences, input, m, field);
    hide Included, FullItem, Built, Real;
  }

  lemma HasDiffIff(differences: Differences, input: Input, name: Name)
    requires Built(differences, input)
    ensures HasDiff(differences, name) <==> DiffersSomewhere(input, name)
  {
    if m, field :| RealAt(differences, m, field, name) {
      RealAtIff(differences, input, m, field, name);
    }
    if m, field :| DiffersAt(input, m, field, name) {
      RealAtIff(differences, input, m, field, name);
    }
    hide RealAt, DiffersAt, Built;
  }

  lemma {:induction false} CellsKeys(channels: seq<Channel>, local: Value, m: Model, field: Field)
    ensures Cells(channels, local, m, field).Keys == Names(channels)
  {
    if channels != [] {
      var n := |channels| - 1;
      CellsKeys(channels[..n], local, m, field);
      NamesNext(channels, n);
      assert channels[..n + 1] == channels;
    }
  }

  lemma KeysAlike(input: Input, m: Model, field: Field)
    ensures FullItem(input, m, field).upstreams.Keys == FullItem(input, m, field).confidence.Keys ==
        Names(input.channels)
  {
    CellsKeys(input.channels, Local(input, m, field), m, field);
    TrustKeys(input.channels, m);
    hide Cells, Trust, Names;
  }

  lemma RestrictedIs(input: Input, m: Model, field: Field, names: set<Name>)
    requires forall name :: name in names <==> DiffersSomewhere(input, name)
    ensures IsRestricted(Restrict(FullItem(input, m, field), names), input, m, field)
  {
    KeysAlike(input, m, field);
    hide FullItem, DiffersSomewhere, Names;
  }

  lemma ShownUnlessAllSame(input: Input, m: Model, field: Field, names: set<Name>)
    requires Included(input, m, field) && forall name :: name in names <==> DiffersSomewhere(input, name)
    ensures Shown(input, m, field) <==> !AllSame(Restrict(FullItem(input, m, field), names).upstreams)
  {
    var full := FullItem(input, m, field);
    hide FullItem, Included, DiffersSomewhere;
    var item := Restrict(full, names);
    if name :| DiffersSomewhere(input, name) && name in full.upstreams && full.upstreams[name] != SAME {
      assert name in item.upstreams && item.upstreams[name] != SAME;
    }
  }

  lemma PrunedAt(differences: Differences, names: set<Name>, input: Input, m: Model, field: Field)
    requires Built(differences, input) && forall name :: name in names <==> DiffersSomewhere(input, name)
    ensures var r := Pruned(differences, names);
            && (m in r && field in r[m] <==> Shown(input, m, field))
            && (m in r && field in r[m] ==> IsRestricted(r[m][field], input, m, field))
  {
    BuiltAt(differences, input, m, field);
    RestrictedIs(input, m, field, names);
    if Included(input, m, field) {
      ShownUnlessAllSame(input, m, field, names);
    }
    if m in differences && field in PrunedItems(differences[m], names) {
      assert PrunedItems(differences[m], names) != map[];
    }
    hide Included, FullItem, Built, DiffersSomewhere, IsRestricted, Restrict, AllSame;
  }

  lemma PrunedIsTable(differences: Differences, names: set<Name>, input: Input)
    requires Built(differences, input) && forall name :: name in names <==> HasDiff(differences, name)
    ensures IsTable(Pruned(differences, names), input)
  {
    var r := Pruned(differences, names);
    forall name
      ensures name in names <==> DiffersSomewhere(input, name)
    {
      HasDiffIff(differences, input, name);
    }
    forall m, field
      ensures m in r && field in r[m] <==> Shown(input, m, field)
      ensures m in r && field in r[m] ==> IsRestricted(r[m][field], input, m, field)
    {
      PrunedAt(differences, names, input, m, field);
    }
    assert forall m :: m in r ==> r[m] != map[];
    hide *;
    TableFrom(r, input);
  }

  lemma TableFrom(r: Differences, input: Input)
    requires forall m, field :: m in r && field in r[m] <==> Shown(input, m, field)
    requires forall m, field :: m in r && field in r[m] ==> IsRestricted(r[m][field], input, m, field)
    requires forall m :: m in r ==> r[m] != map[]
    ensures IsTable(r, input)
  {
    hide Shown, IsRestricted;
    forall m
      ensures m in r <==> exists field :: Shown(input, m, field)
    {
      if m in r {
        SomeField(r[m]);
        var field :| field in r[m];
        assert Shown(input, m, field);
      }
    }
  }

  lemma SomeField(items: map<Field, Item>)
    ensures items == map[] || exists field :: field in items
  {
  }

  // ---------------------------------------------------------------------------
  // What the table means
  // ---------------------------------------------------------------------------

  ghost predicate Distinct(channels: seq<Channel>) {
    forall i, j :: 0 <= i < j < |channels| ==> channels[i].name != channels[j].name
  }

  /** Channel `i` has a value for the field and the local one is missing or not equal to it. */
  predicate Genuine(input: Input, i: int, m: Model, field: Field) {
    && 0 <= i < |input.channels| && Has(input.channels[i], m, field)
    && !ValuesEqual(Local(input, m, field), Upstream(input.channels[i], m, field))
  }

  lemma {:induction false} CellAt(channels: seq<Channel>, local: Value, m: Model, field: Field, i: nat)
    requires Distinct(channels) && i < |channels|
    ensures var cells := Cells(channels, local, m, field);
            channels[i].name in cells && cells[channels[i].name] == CellOf(local, channels[i], m, field)
  {
    hide CellOf;
    var n := |channels| - 1;
    if i < n {
      CellAt(channels[..n], local, m, field, i);
    }
  }

  lemma {:induction false} TrustAt(channels: seq<Channel>, m: Model, i: nat)
    requires Distinct(channels) && i < |channels|
    ensures channels[i].name in Trust(channels, m)
        && Trust(channels, m)[channels[i].name] == !Suspicious(channels[i], m)
  {
    hide Suspicious;
    var n := |channels| - 1;
    if i < n {
      TrustAt(channels[..n], m, i);
    }
  }

  lemma FullCell(input: Input, m: Model, field: Field, i: nat)
    requires Distinct(input.channels) && i < |input.channels|
    ensures var full, channel := FullItem(input, m, field), input.channels[i];
            && channel.name in full.upstreams
            && full.upstreams[channel.name] == CellOf(Local(input, m, field), channel, m, field)
            && channel.name in full.confidence && full.confidence[channel.name] == !Suspicious(channel, m)
  {
    CellAt(input.channels, Local(input, m, field), m, field, i);
    TrustAt(input.channels, m, i);
    hide CellOf, Suspicious, Cells, Trust, Local;
  }

  /** No upstream value is null or the word "same". */
  ghost predicate Plain(input: Input) {
    forall i, m, field :: 0 <= i < |input.channels| && Has(input.channels[i], m, field) ==>
      Real(Upstream(input.channels[i], m, field))
  }

  /** Without null and "same", an item is included exactly when some channel genuinely differs. */
  lemma IncludedIff(input: Input, m: Model, field: Field)
    requires Plain(input)
    ensures Included(input, m, field) <==> exists i :: Genuine(input, i, m, field)
  {
    var local := Local(input, m, field);
    if Included(input, m, field) {
      var i :| 0 <= i < |input.channels| && Has(input.channels[i], m, field)
               && (local != Null ==> Differs(local, input.channels[i], m, field));
      assert Real(Upstream(input.channels[i], m, field));
      assert Genuine(input, i, m, field);
    }
    if i :| Genuine(input, i, m, field) {
      assert Real(Upstream(input.channels[i], m, field));
      assert Differs(local, input.channels[i], m, field);
    }
  }

  /** A genuine difference shows up as a real cell, and a real cell is one. */
  lemma RealCellIff(input: Input, m: Model, field: Field, i: nat)
    requires Plain(input) && Distinct(input.channels) && i < |input.channels|
    ensures DiffersAt(input, m, field, input.channels[i].name) <==> Genuine(input, i, m, field)
  {
    FullCell(input, m, field, i);
    IncludedIff(input, m, field);
    if Has(input.channels[i], m, field) {
      assert Real(Upstream(input.channels[i], m, field));
    }
    hide FullItem, Included, Local, Suspicious, Distinct;
  }

  ghost predicate GenuineSomewhere(input: Input, i: nat) {
    exists m, field :: Genuine(input, i, m, field)
  }

  lemma SomewhereIff(input: Input, i: nat)
    requires Plain(input) && Distinct(input.channels) && i < |input.channels|
    ensures DiffersSomewhere(input, input.channels[i].name) <==> GenuineSomewhere(input, i)
  {
    var name := input.channels[i].name;
    if m, field :| DiffersAt(input, m, field, name) {
      RealCellIff(input, m, field, i);
      assert Genuine(input, i, m, field);
    }
    if m, field :| Genuine(input, i, m, field) {
      RealCellIff(input, m, field, i);
      assert DiffersAt(input, m, field, name);
    }
    hide DiffersAt, Genuine, Plain, Distinct;
  }

  /** Pruning never removes an item: it is shown exactly when some channel genuinely differs there. */
  lemma ShownIff(input: Input, m: Model, field: Field)
    requires Plain(input) && Distinct(input.channels)
    ensures Shown(input, m, field) <==> exists i :: Genuine(input, i, m, field)
  {
    IncludedIff(input, m, field);
    if i :| Genuine(input, i, m, field) {
      RealCellIff(input, m, field, i);
      assert DiffersAt(input, m, field, input.channels[i].name);
      assert DiffersSomewhere(input, input.channels[i].name);
      FullCell(input, m, field, i);
    }
    hide Included, FullItem, Local;
  }

  lemma TableAt(r: Differences, input: Input, m: Model, field: Field)
    requires IsTable(r, input)
    ensures m in r && field in r[m] <==> Shown(input, m, field)
    ensures m in r && field in r[m] ==> IsRestricted(r[m][field], input, m, field)
  {
    hide Shown, IsRestricted;
  }

  /** The table has an entry, and what it says: an integer price counts as a number. */
  ghost predicate Listed(data: Data, m: Model, field: Field) {
    field in data && m in data[field]
  }

  ghost function Priced(data: Data, m: Model, field: Field): Value {
    if !Listed(data, m, field) then Null
    else match data[field][m]
         case Int(n) => if field in {BillingMode, BillingExpr} then Int(n) else Num(n as real)
         case v => v
  }

  /** Two numbers that are at least a billionth apart, or two values that are not the same. */
  ghost predicate Apart(a: Value, b: Value) {
    if a.Num? && b.Num? then a.x - b.x >= 0.000000001 || b.x - a.x >= 0.000000001 else a != b
  }

  /** Channel `i` lists a value that is apart from the local one. */
  ghost predicate Deviates(input: Input, i: int, m: Model, field: Field) {
    && 0 <= i < |input.channels| && Listed(input.channels[i].data, m, field)
    && Apart(Priced(input.local, m, field), Priced(input.channels[i].data, m, field))
  }

  ghost predicate DeviatesSomewhere(input: Input, i: nat) {
    exists m, field :: Deviates(input, i, m, field)
  }

  /** The value is the number `x`, up to a billionth. */
  ghost predicate About(v: Value, x: real) {
    v.Num? && x - 0.000000001 < v.x < x + 0.000000001
  }

  lemma PricedIs(input: Input, i: nat, m: Model, field: Field)
    requires i < |input.channels|
    ensures Local(input, m, field) == Priced(input.local, m, field)
    ensures Has(input.channels[i], m, field) <==> Listed(input.channels[i].data, m, field)
    ensures Has(input.channels[i], m, field) ==>
              Upstream(input.channels[i], m, field) == Priced(input.channels[i].data, m, field)
    ensures Genuine(input, i, m, field) <==> Deviates(input, i, m, field)
  {
  }

  lemma SuspiciousIff(channel: Channel, m: Model)
    ensures Suspicious(channel, m) <==>
              About(Priced(channel.data, m, ModelRatio), 37.5) && About(Priced(channel.data, m, CompletionRatio), 1.0)
  {
  }

  /** The genuine differences are the deviations, for all models and fields. */
  lemma DeviatesIff(input: Input, m: Model, field: Field)
    ensures (exists j :: Genuine(input, j, m, field)) <==> exists j :: Deviates(input, j, m, field)
  {
    if j :| Genuine(input, j, m, field) {
      PricedIs(input, j, m, field);
      assert Deviates(input, j, m, field);
    }
    if j :| Deviates(input, j, m, field) {
      PricedIs(input, j, m, field);
      assert Genuine(input, j, m, field);
    }
  }

  lemma DeviatesSomewhereIff(input: Input, i: nat)
    requires i < |input.channels|
    ensures GenuineSomewhere(input, i) <==> DeviatesSomewhere(input, i)
  {
    if m, field :| Genuine(input, i, m, field) {
      PricedIs(input, i, m, field);
      assert Deviates(input, i, m, field);
    }
    if m, field :| Deviates(input, i, m, field) {
      PricedIs(input, i, m, field);
      assert Genuine(input, i, m, field);
    }
    hide Genuine, Deviates;
  }

  /** A cell shows the channel's own value where it deviates, "same" where it agrees, nothing where it has none. */
  lemma CellShows(input: Input, i: nat, m: Model, field: Field)
    requires i < |input.channels|
    ensures CellOf(Local(input, m, field), input.channels[i], m, field) ==
              if Deviates(input, i, m, field) then Priced(input.channels[i].data, m, field)
              else if Listed(input.channels[i].data, m, field) || Priced(input.local, m, field) == Null then Str("same")
              else Null
  {
    PricedIs(input, i, m, field);
    hide Local, Upstream, Has, ValuesEqual;
  }

  /**
   What the computed table says, in terms of the price tables alone, for upstream values that
   are neither null nor "same": items are the deviations, a channel is in every item or in
   none, each cell is the channel's value, "same" or nothing, and a channel is not trusted
   exactly when it answers 37.5 and 1.
   */
  lemma TableMeans(r: Differences, input: Input, m: Model, field: Field, i: nat)
    requires IsTable(r, input) && Plain(input) && Distinct(input.channels) && i < |input.channels|
    ensures m in r && field in r[m] <==> exists j :: Deviates(input, j, m, field)
    ensures m in r && field in r[m] ==>
              var item, channel, local := r[m][field], input.channels[i], Priced(input.local, m, field);
              && item.current == local
              && (channel.name in item.upstreams <==> DeviatesSomewhere(input, i))
              && (channel.name in item.confidence <==> DeviatesSomewhere(input, i))
              && (channel.name in item.upstreams ==>
                    item.upstreams[channel.name] ==
                      if Deviates(input, i, m, field) then Priced(channel.data, m, field)
                      else if Listed(channel.data, m, field) || local == Null then Str("same")
                      else Null)
              && (channel.name in item.confidence ==>
                    (!item.confidence[channel.name] <==>
                       && About(Priced(channel.data, m, ModelRatio), 37.5)
                       && About(Priced(channel.data, m, CompletionRatio), 1.0)))
  {
    ShownIff(input, m, field);
    DeviatesIff(input, m, field);
    SomewhereIff(input, i);
    DeviatesSomewhereIff(input, i);
    FullCell(input, m, field, i);
    CellShows(input, i, m, field);
    PricedIs(input, i, m, field);
    SuspiciousIff(input.channels[i], m);
    assert FullItem(input, m, field).current == Local(input, m, field);
    TableAt(r, input, m, field);
    hide IsTable, Shown, Local, Suspicious, CellOf, GenuineSomewhere, DiffersSomewhere, FullItem, Plain, Distinct,
        Genuine, Deviates, DeviatesSomewhere, Priced, Listed, About, Has, Upstream;
  }

  /** An empty model entry never remains. */
  lemma NoEmptyEntry(r: Differences, input: Input)
    requires IsTable(r, input)
    ensures forall m :: m in r ==> r[m] != map[]
  {
    forall m | m in r
      ensures r[m] != map[]
    {
      var field :| Shown(input, m, field);
      assert field in r[m];
    }
  }

  // ---------------------------------------------------------------------------
  // Null and "same" upstream
  // ---------------------------------------------------------------------------

  /**
   Whatever the values, only genuine differences are shown: and of those, the ones some differing
   channel does not call "same".
   */
  lemma ShownExactly(input: Input, m: Model, field: Field)
    requires Distinct(input.channels)
    ensures Shown(input, m, field) <==>
        (exists i :: Genuine(input, i, m, field)) && exists j :: Disagrees(input, j, m, field)
  {
    if Shown(input, m, field) {
      ShownGenuine(input, m, field);
      ShownDisagrees(input, m, field);
    }
    if (exists i :: Genuine(input, i, m, field)) && exists j :: Disagrees(input, j, m, field) {
      var j :| Disagrees(input, j, m, field);
      FullCell(input, m, field, j);
      GenuineIncluded(input, m, field);
    }
    hide Included, FullItem, DiffersSomewhere, Genuine, CellOf, Local, Distinct, Suspicious;
  }

  /** Channel `j` differs somewhere and does not show "same" here. */
  ghost predicate Disagrees(input: Input, j: int, m: Model, field: Field) {
    && 0 <= j < |input.channels| && DiffersSomewhere(input, input.channels[j].name)
    && CellOf(Local(input, m, field), input.channels[j], m, field) != SAME
  }

  lemma ShownDisagrees(input: Input, m: Model, field: Field)
    requires Distinct(input.channels) && Shown(input, m, field)
    ensures exists j :: Disagrees(input, j, m, field)
  {
    hide Included, DiffersSomewhere, CellOf, Local;
    var name :| DiffersSomewhere(input, name) && name in FullItem(input, m, field).upstreams
                && FullItem(input, m, field).upstreams[name] != SAME;
    KeysAlike(input, m, field);
    var j :| 0 <= j < |input.channels| && input.channels[j].name == name;
    FullCell(input, m, field, j);
    assert Disagrees(input, j, m, field);
  }

  lemma GenuineIncluded(input: Input, m: Model, field: Field)
    requires exists i :: Genuine(input, i, m, field)
    ensures Included(input, m, field)
  {
    var i :| Genuine(input, i, m, field);
    if Local(input, m, field) != Null {
      assert Differs(Local(input, m, field), input.channels[i], m, field);
    }
  }

  lemma ShownGenuine(input: Input, m: Model, field: Field)
    requires Distinct(input.channels) && Shown(input, m, field)
    ensures exists i :: Genuine(input, i, m, field)
  {
    var local := Local(input, m, field);
    if local != Null {
      var i :| 0 <= i < |input.channels| && Differs(local, input.channels[i], m, field);
      assert Genuine(input, i, m, field);
    } else {
      var name :| DiffersSomewhere(input, name) && name in FullItem(input, m, field).upstreams
                  && FullItem(input, m, field).upstreams[name] != SAME;
      KeysAlike(input, m, field);
      var i :| 0 <= i < |input.channels| && input.channels[i].name == name;
      FullCell(input, m, field, i);
      assert Genuine(input, i, m, field);
    }
  }

  /** A channel that answers null, or the word "same", for the only value that differs is not reported. */
  lemma NullOrSameIsNotReported(answer: Value)
    requires answer == Null || answer == SAME
    ensures var m := Model("m");
            var input := Input(map[BillingMode := map[m := Str("ratio")]],
                [Channel(Name("c"), map[BillingMode := map[m := answer]])]);
            Genuine(input, 0, m, BillingMode) && !Shown(input, m, BillingMode)
  {
    var m, c := Model("m"), Channel(Name("c"), map[BillingMode := map[Model("m") := answer]]);
    var input := Input(map[BillingMode := map[m := Str("ratio")]], [c]);
    assert Local(input, m, BillingMode) == Str("ratio");
    forall j | 0 <= j < |input.channels|
      ensures !DiffersSomewhere(input, input.channels[j].name)
    {
      forall m', field'
        ensures !DiffersAt(input, m', field', c.name)
      {
        FullCell(input, m', field', 0);
      }
    }
    ShownExactly(input, m, BillingMode);
  }
}
