/** The dashboard's matrix model: the registries of hospitals, capacity types
    and service groups, the status cell of every (hospital, item) pair, the
    PVA list of every cell, the rules that derive a cell's displayed status,
    colour and label, the statistics over all cells, and the handlers that
    update the state in place. */
module Matrix {
  import opened Domain
  import Registry
  import Triage
  import Seqs
  import Fold

  // ---------------------------------------------------------------------
  // Initial registries

  const InitialHospitals: seq<Hospital> := [
    Hospital(1, "Universitätsklinikum Düsseldorf", "UKD", true, "", "", "", ""),
    Hospital(2, "St. Martinus Krankenhaus", "SMK", true, "", "", "", ""),
    Hospital(3, "Helios Klinikum", "HEL", false, "", "", "", ""),
    Hospital(4, "Evangelisches Krankenhaus", "EVK", true, "", "", "", ""),
    Hospital(5, "Marien Hospital", "MHD", true, "", "", "", ""),
    Hospital(6, "St. Josef Krankenhaus", "SJK", true, "", "", "", "")
  ]

  const InitialCapacities: seq<Item> := [
    Item(1, "Notaufnahme", "", "capacity"),
    Item(2, "Intensivstation", "", "capacity"),
    Item(3, "Stroke Unit", "", "capacity"),
    Item(4, "Herzkatheterlabor", "", "capacity"),
    Item(5, "OP-Bereitschaft", "", "capacity"),
    Item(6, "Kindernotaufnahme", "", "capacity"),
    Item(7, "Psychiatrie", "", "capacity"),
    Item(8, "Radiologie", "", "capacity"),
    Item(9, "Labormedizin", "", "capacity"),
    Item(10, "Dialyse", "", "capacity")
  ]

  const InitialServiceGroups: seq<Item> := [
    Item(11, "Kardiologie", "", "service"),
    Item(12, "Neurologie", "", "service"),
    Item(13, "Allgemeinchirurgie", "", "service"),
    Item(14, "Innere Medizin", "", "service"),
    Item(15, "Orthopädie", "", "service"),
    Item(16, "Gynäkologie", "", "service"),
    Item(17, "Urologie", "", "service"),
    Item(18, "Hals-Nasen-Ohren", "", "service"),
    Item(19, "Augenheilkunde", "", "service"),
    Item(20, "Dermatologie", "", "service"),
    Item(21, "Anästhesiologie", "", "service"),
    Item(22, "Gastroenterologie", "", "service")
  ]

  /** The matrix's columns: the capacity types, then the service groups. */
  const InitialItems: seq<Item> := InitialCapacities + InitialServiceGroups

  /** Capacities and service groups share the cell key space, so their ids
      must not clash; in the initial registries every hospital and every
      column carries its own id, its position plus one. */
  lemma InitialIdsArePositions()
    ensures forall i :: 0 <= i < |InitialHospitals| ==> InitialHospitals[i].id == i + 1
    ensures forall i :: 0 <= i < |InitialItems| ==> InitialItems[i].id == i + 1
  {
  }

  // ---------------------------------------------------------------------
  // The sample matrix built when the registries change

  /** The random inputs of one generated cell: the status draw in [0, 1),
      how many milliseconds ago it was updated, and who updated it. */
  datatype Dice = Dice(statusChance: real, age: nat, byControlCentre: bool)

  /** The status and availability the generator gives hospital `h`'s cell
      for item `itemId`: inactive for an inactive hospital, fixed values for
      the demonstration cells, otherwise a draw on `chance`. */
  function InitialStatus(h: Hospital, itemId: int, chance: real): (StatusKind, bool) {
    if !h.active then (Inactive, true)
    else if h.id == 1 && itemId == 2 then (Overloaded, true)
    else if h.id == 2 && itemId == 1 then (Limited, true)
    else if h.id == 1 && itemId == 1 then (Incapacitated, true)
    else if h.id == 1 && itemId == 3 then (FutureOverload, true)
    else if h.id == 5 && itemId == 2 then (Overloaded, true)
    else if h.id == 6 && itemId == 6 then (Limited, true)
    else if h.id == 7 && itemId == 5 then (FutureOverload, true)
    else if h.id == 9 && itemId == 1 then (Overloaded, true)
    else if h.id == 10 && itemId == 7 then (Limited, true)
    else if (h.id == 4 || h.id == 6) && itemId == 4 then (NotAvailable, false)
    else if h.id == 5 && itemId == 6 then (NotAvailable, false)
    else if chance < 0.15 then (Overloaded, true)
    else if chance < 0.25 then (Limited, true)
    else if chance < 0.05 then (Incapacitated, true)
    else if chance < 0.1 then (FutureOverload, true)
    else if chance < 0.15 && MultipleOfSeven(h.id + itemId) then (NotAvailable, false)
    else (Free, true)
  }

  predicate MultipleOfSeven(n: int) { n % 7 == 0 }

  /** The comment a generated cell carries for its status. */
  function InitialComment(s: StatusKind): string {
    match s
    case Overloaded => "Hoher Patientenandrang"
    case Limited => "Personalengpass"
    case Incapacitated => "Technische Störung"
    case NotAvailable => "Abteilung nicht verfügbar"
    case FutureOverload => "Erwartete Überlastung ab 14:00"
    case Inactive => "Krankenhaus inaktiv - Abteilungen verfügbar"
    case _ => ""
  }

  const Hour: int := 3600000

  /** One generated cell; a planned overload lies two to four hours ahead. */
  function InitialCell(h: Hospital, item: Item, dice: Dice, now: int): (c: Cell)
    ensures !h.active ==> c.status == Inactive && c.available
    ensures c.available <==> c.status != NotAvailable
    ensures c.futureOverloads != [] <==> c.status == FutureOverload
    ensures c.pvaCount == None && !c.skipAutoFree
  {
    var (status, available) := InitialStatus(h, item.id, dice.statusChance);
    Cell(status, available, now - dice.age,
         if dice.byControlCentre then "Leitstelle" else "Krankenhaus",
         InitialComment(status), false,
         if status == FutureOverload then [Interval(now + 2 * Hour, now + 4 * Hour)] else [],
         None)
  }

  /** The random draw only ever yields overloaded, limited or free: the
      branches for incapacitated, future overload and not available sit
      behind thresholds the earlier tests already cover, so those statuses
      appear only in the fixed demonstration cells. */
  lemma RandomDrawYieldsThreeStatuses(h: Hospital, itemId: int, chance: real)
    ensures var (s, _) := InitialStatus(h, itemId, chance);
      s == Incapacitated ==> h.id == 1 && itemId == 1
    ensures var (s, _) := InitialStatus(h, itemId, chance);
      s == FutureOverload ==> (h.id == 1 && itemId == 3) || (h.id == 7 && itemId == 5)
    ensures var (s, _) := InitialStatus(h, itemId, chance);
      s == NotAvailable ==> (h.id in {4, 6} && itemId == 4) || (h.id == 5 && itemId == 6)
    ensures var (s, _) := InitialStatus(h, itemId, chance);
      h.active && chance < 0.15 && !IsDemonstrationCell(h.id, itemId) ==> s == Overloaded
  {
  }

  predicate IsDemonstrationCell(hospitalId: int, itemId: int) {
    (hospitalId, itemId) in {(1, 2), (2, 1), (1, 1), (1, 3), (5, 2), (6, 6), (7, 5), (9, 1), (10, 7), (4, 4), (6, 4), (5, 6)}
  }

  /** The keys of every hospital × item pair. */
  function PairKeys(hs: seq<Hospital>, items: seq<Item>): set<CellKey> {
    set h, i | h in hs && i in items :: CellKey(h.id, i.id)
  }

  /** Every cell of `m` is the generated cell of some hospital and item
      whose ids form its key. */
  ghost predicate Generated(m: map<CellKey, Cell>, hs: seq<Hospital>, items: seq<Item>, dice: CellKey -> Dice, now: int) {
    forall k :: k in m ==>
      (exists h, i :: h in hs && i in items && k == CellKey(h.id, i.id) && m[k] == InitialCell(h, i, dice(k), now))
  }

  /** Stores the generated cell of `h` and `item`. */
  function PlaceCell(m: map<CellKey, Cell>, h: Hospital, item: Item, dice: CellKey -> Dice, now: int): (r: map<CellKey, Cell>)
    ensures r.Keys == m.Keys + {CellKey(h.id, item.id)}
  {
    m[CellKey(h.id, item.id) := InitialCell(h, item, dice(CellKey(h.id, item.id)), now)]
  }

  lemma GeneratedStep(m: map<CellKey, Cell>, hs: seq<Hospital>, items: seq<Item>, dice: CellKey -> Dice, now: int,
                      h: Hospital, i: Item)
    requires Generated(m, hs, items, dice, now) && h in hs && i in items
    ensures Generated(PlaceCell(m, h, i, dice, now), hs, items, dice, now)
  {
  }

  /** The keys of hospital `h`'s cells. */
  function RowKeys(h: Hospital, items: seq<Item>): set<CellKey> {
    set i | i in items :: CellKey(h.id, i.id)
  }

  lemma RowKeysNextItem(h: Hospital, items: seq<Item>, b: nat)
    requires b < |items|
    ensures RowKeys(h, items[..b + 1]) == RowKeys(h, items[..b]) + {CellKey(h.id, items[b].id)}
  {
    assert items[..b + 1] == items[..b] + [items[b]];
  }

  lemma PairKeysNextHospital(hs: seq<Hospital>, items: seq<Item>, a: nat)
    requires a < |hs|
    ensures PairKeys(hs[..a + 1], items) == PairKeys(hs[..a], items) + RowKeys(hs[a], items)
  {
    assert hs[..a + 1] == hs[..a] + [hs[a]];
  }

  /** The nested loops of the initialisation effect: one key per
      hospital × item pair, whose cell is generated from a pair with those
      ids. When ids repeat, the pairs sharing a key write the same slot;
      `GeneratedCellOfPair` pins the cell of a pair whose ids are unique. */
  method InitMatrix(hs: seq<Hospital>, items: seq<Item>, dice: CellKey -> Dice, now: int)
    returns (m: map<CellKey, Cell>)
    ensures m.Keys == PairKeys(hs, items)
    ensures Generated(m, hs, items, dice, now)
  {
    m := map[];
    var a := 0;
    while a < |hs|
      invariant 0 <= a <= |hs|
      invariant m.Keys == PairKeys(hs[..a], items)
      invariant Generated(m, hs, items, dice, now)
    {
      PairKeysNextHospital(hs, items, a);
      m := InitRow(m, hs, a, items, dice, now);
      a := a + 1;
    }
    assert hs[..a] == hs;
  }

  /** The inner loop: the cells of hospital `hs[a]`, one per item. */
  method InitRow(m0: map<CellKey, Cell>, hs: seq<Hospital>, a: nat, items: seq<Item>, dice: CellKey -> Dice, now: int)
    returns (m: map<CellKey, Cell>)
    requires a < |hs| && Generated(m0, hs, items, dice, now)
    ensures m.Keys == m0.Keys + RowKeys(hs[a], items)
    ensures Generated(m, hs, items, dice, now)
  {
    m := m0;
    var h := hs[a];
    assert h in hs;
    var b := 0;
    while b < |items|
      invariant 0 <= b <= |items|
      invariant m.Keys == m0.Keys + RowKeys(h, items[..b])
      invariant Generated(m, hs, items, dice, now)
    {
      RowStep(m0, m, hs, h, items, b, dice, now);
      m := PlaceCell(m, h, items[b], dice, now);
      b := b + 1;
    }
    assert items[..b] == items;
  }

  lemma RowStep(m0: map<CellKey, Cell>, m: map<CellKey, Cell>, hs: seq<Hospital>, h: Hospital, items: seq<Item>, b: nat,
                dice: CellKey -> Dice, now: int)
    requires h in hs && b < |items|
    requires m.Keys == m0.Keys + RowKeys(h, items[..b]) && Generated(m, hs, items, dice, now)
    ensures PlaceCell(m, h, items[b], dice, now).Keys == m0.Keys + RowKeys(h, items[..b + 1])
    ensures Generated(PlaceCell(m, h, items[b], dice, now), hs, items, dice, now)
  {
    GeneratedStep(m, hs, items, dice, now, h, items[b]);
    RowKeysNextItem(h, items, b);
  }

  /** When no other hospital and no other item share the ids of `h` and
      `item`, their key holds exactly their generated cell. */
  lemma GeneratedCellOfPair(m: map<CellKey, Cell>, hs: seq<Hospital>, items: seq<Item>,
                            dice: CellKey -> Dice, now: int, h: Hospital, item: Item)
    requires m.Keys == PairKeys(hs, items) && Generated(m, hs, items, dice, now)
    requires h in hs && item in items
    requires forall g :: g in hs && g.id == h.id ==> g == h
    requires forall j :: j in items && j.id == item.id ==> j == item
    ensures CellKey(h.id, item.id) in m
    ensures m[CellKey(h.id, item.id)] == InitialCell(h, item, dice(CellKey(h.id, item.id)), now)
  {
    var k := CellKey(h.id, item.id);
    assert k in PairKeys(hs, items);
    var g, i :| g in hs && i in items && k == CellKey(g.id, i.id) && m[k] == InitialCell(g, i, dice(k), now);
  }

  /** Over the initial registries every key holds the generated cell of its
      own hospital and column. */
  lemma InitialMatrixCells(m: map<CellKey, Cell>, dice: CellKey -> Dice, now: int, h: Hospital, item: Item)
    requires m.Keys == PairKeys(InitialHospitals, InitialItems)
    requires Generated(m, InitialHospitals, InitialItems, dice, now)
    requires h in InitialHospitals && item in InitialItems
    ensures CellKey(h.id, item.id) in m
    ensures m[CellKey(h.id, item.id)] == InitialCell(h, item, dice(CellKey(h.id, item.id)), now)
  {
    InitialIdsArePositions();
    GeneratedCellOfPair(m, InitialHospitals, InitialItems, dice, now, h, item);
  }

  /** In the generated matrix every cell of an inactive hospital is
      available and inactive, provided no other hospital shares its id. */
  lemma GeneratedInactiveHospital(m: map<CellKey, Cell>, hs: seq<Hospital>, items: seq<Item>,
                                  dice: CellKey -> Dice, now: int, h: Hospital, item: Item)
    requires m.Keys == PairKeys(hs, items) && Generated(m, hs, items, dice, now)
    requires h in hs && item in items && !h.active
    requires forall g :: g in hs && g.id == h.id ==> g == h
    ensures CellKey(h.id, item.id) in m
    ensures m[CellKey(h.id, item.id)].status == Inactive && m[CellKey(h.id, item.id)].available
  {
    var k := CellKey(h.id, item.id);
    assert k in PairKeys(hs, items);
    var g, i :| g in hs && i in items && k == CellKey(g.id, i.id) && m[k] == InitialCell(g, i, dice(k), now);
  }

  // ---------------------------------------------------------------------
  // Status derivation, colour and label

  /** `STATUS_COLORS`. */
  function Palette(s: StatusKind): string {
    match s
    case Free => "#4caf50"
    case Overloaded => "#f44336"
    case Limited => "#ff9800"
    case Incapacitated => "#000000"
    case NotAvailable => "#9e9e9e"
    case FutureOverload => "#a5d6a7"
    case Inactive => "#4caf50"
  }

  /** A cell background: a flat colour or the green/white diagonal stripe. */
  datatype Paint = Solid(hex: string) | GreenWhiteStripe

  /** `getCellColor`: black-and-white mode first (white exactly for free),
      then the stripe for an inactive hospital or status, then the palette. */
  function CellColor(status: StatusKind, isInactive: bool, blackWhite: bool): (p: Paint)
    ensures blackWhite ==> (p == Solid("#ffffff") || p == Solid("#000000"))
    ensures blackWhite ==> (p == Solid("#ffffff") <==> status == Free)
    ensures !blackWhite ==> (p == GreenWhiteStripe <==> isInactive || status == Inactive)
    ensures !blackWhite && !isInactive && status != Inactive ==> p == Solid(Palette(status))
  {
    if blackWhite then
      (if status == Free then Solid("#ffffff") else Solid("#000000"))
    else if isInactive || status == Inactive then GreenWhiteStripe
    else Solid(Palette(status))
  }

  /** Outside black-and-white mode every status that reaches the palette
      gets a colour of its own. */
  lemma PaletteDistinguishesStatuses(a: StatusKind, b: StatusKind)
    requires a != Inactive && b != Inactive && a != b
    ensures Palette(a) != Palette(b)
  {
  }

  /** `getStatusLabel`. */
  function StatusLabel(s: StatusKind): string {
    match s
    case Free => "Verfügbar"
    case Overloaded => "Ausgelastet"
    case Limited => "Eingeschränkt"
    case Incapacitated => "Handlungsunfähig"
    case NotAvailable => "Verfügbar"
    case FutureOverload => "Zukünftig ausgelastet"
    case Inactive => "Inaktiv"
  }

  /** Two statuses share a label only when they are free and not_available. */
  lemma LabelsCollideOnlyOnAvailability(a: StatusKind, b: StatusKind)
    ensures StatusLabel(a) == StatusLabel(b) <==> a == b || {a, b} == {Free, NotAvailable}
  {
    if a != b && StatusLabel(a) == StatusLabel(b) {
      assert StatusLabel(a) == "Verfügbar";
    }
  }

  /** The cell stored under `key`, or what spreading a missing cell gives. */
  function StoredCell(m: map<CellKey, Cell>, key: CellKey): Cell {
    if key in m then m[key] else Blank
  }

  /** `getCellStatus`: a missing or unavailable cell shows not_available,
      any other cell its stored status. */
  function CellStatus(m: map<CellKey, Cell>, hospitalId: int, itemId: int): (s: StatusKind)
    ensures var key := CellKey(hospitalId, itemId);
      if key in m && m[key].available then s == m[key].status else s == NotAvailable
  {
    var key := CellKey(hospitalId, itemId);
    if key !in m || !m[key].available then NotAvailable else m[key].status
  }

  /** The background the matrix gives hospital `h`'s cell for item `itemId`. */
  function DisplayPaint(m: map<CellKey, Cell>, blackWhite: bool, h: Hospital, itemId: int): Paint {
    CellColor(CellStatus(m, h.id, itemId), !h.active, blackWhite)
  }

  /** An inactive hospital's cells are striped whatever they store, unless
      black-and-white mode is on. */
  lemma InactiveHospitalIsStriped(m: map<CellKey, Cell>, h: Hospital, itemId: int)
    requires !h.active
    ensures DisplayPaint(m, false, h, itemId) == GreenWhiteStripe
  {
  }

  /** In black-and-white mode hospital activity is ignored: a cell is white
      exactly when it is available and stored free. */
  lemma BlackWhiteShowsOnlyFree(m: map<CellKey, Cell>, h: Hospital, itemId: int)
    ensures var key := CellKey(h.id, itemId);
      DisplayPaint(m, true, h, itemId) == Solid("#ffffff") <==> key in m && m[key].available && m[key].status == Free
  {
  }

  /** The worked example: an available overloaded cell of an active hospital
      is red and labelled "Ausgelastet"; if the hospital is inactive it is
      striped. */
  lemma OverloadedCellExample(m: map<CellKey, Cell>, h: Hospital)
    requires h.id == 1 && CellKey(1, 2) in m
    requires m[CellKey(1, 2)].status == Overloaded && m[CellKey(1, 2)].available
    ensures h.active ==> DisplayPaint(m, false, h, 2) == Solid("#f44336")
    ensures StatusLabel(CellStatus(m, 1, 2)) == "Ausgelastet"
    ensures !h.active ==> DisplayPaint(m, false, h, 2) == GreenWhiteStripe
  {
  }

  // ---------------------------------------------------------------------
  // Statistics

  datatype Stats = Stats(total: nat, free: nat, overloaded: nat, limited: nat, incapacitated: nat, totalPva: nat)

  /** The counter a cell can fall into: `total` counts every available cell,
      the other buckets the available cells with exactly that status. */
  datatype Bucket = AnyStatus | Exactly(status: StatusKind)

  predicate InBucket(c: Cell, b: Bucket) {
    c.available && (b.AnyStatus? || c.status == b.status)
  }

  /** The keys among `keys` whose cell falls into bucket `b`. */
  function Counted(m: map<CellKey, Cell>, keys: set<CellKey>, b: Bucket): set<CellKey> {
    set k | k in keys && k in m && InBucket(m[k], b)
  }

  function ListLength(p: map<CellKey, seq<Pva>>): CellKey -> nat {
    (k: CellKey) => if k in p then |p[k]| else 0
  }

  /** What `getStatistics` computes: each counter is the number of cells in
      its bucket; `totalPva` is the total length of all PVA lists. */
  ghost function StatisticsOf(m: map<CellKey, Cell>, p: map<CellKey, seq<Pva>>): Stats {
    Stats(
      |Counted(m, m.Keys, AnyStatus)|,
      |Counted(m, m.Keys, Exactly(Free))|,
      |Counted(m, m.Keys, Exactly(Overloaded))|,
      |Counted(m, m.Keys, Exactly(Limited))|,
      |Counted(m, m.Keys, Exactly(Incapacitated))|,
      Fold.SumOver(p.Keys, ListLength(p)))
  }

  /** The four status buckets are disjoint parts of the available cells, so
      together they never exceed `total`. */
  lemma BucketsWithinTotal(m: map<CellKey, Cell>, p: map<CellKey, seq<Pva>>)
    ensures var s := StatisticsOf(m, p);
      s.free + s.overloaded + s.limited + s.incapacitated <= s.total
  {
    var f := Counted(m, m.Keys, Exactly(Free));
    var o := Counted(m, m.Keys, Exactly(Overloaded));
    var l := Counted(m, m.Keys, Exactly(Limited));
    var i := Counted(m, m.Keys, Exactly(Incapacitated));
    var t := Counted(m, m.Keys, AnyStatus);
    assert f * o == {} && (f + o) * l == {} && (f + o + l) * i == {};
    assert |f + o + l + i| == |f| + |o| + |l| + |i|;
    SubsetCardinality(f + o + l + i, t);
  }

  lemma {:induction false} SubsetCardinality<K>(a: set<K>, b: set<K>)
    requires a <= b
    ensures |a| <= |b|
    decreases a
  {
    if a != {} {
      var x :| x in a;
      SubsetCardinality(a - {x}, b - {x});
    }
  }

  /** A cell counts in one of the four status buckets exactly when
      `getCellStatus` reports that status for it. */
  lemma CountedIffCellStatus(m: map<CellKey, Cell>, key: CellKey, s: StatusKind)
    requires s in {Free, Overloaded, Limited, Incapacitated}
    ensures key in Counted(m, m.Keys, Exactly(s)) <==> CellStatus(m, key.hospitalId, key.itemId) == s
  {
  }

  /** One step of the counting loop: visiting key `k` adds it to bucket `b`
      exactly when its cell falls into `b`. */
  lemma CountedStep(m: map<CellKey, Cell>, todo: set<CellKey>, k: CellKey, b: Bucket)
    requires k in todo && todo <= m.Keys
    ensures |Counted(m, m.Keys - (todo - {k}), b)| ==
      |Counted(m, m.Keys - todo, b)| + (if InBucket(m[k], b) then 1 else 0)
  {
    var done := m.Keys - todo;
    var before := Counted(m, done, b);
    var after := Counted(m, m.Keys - (todo - {k}), b);
    assert k !in before;
    if InBucket(m[k], b) {
      assert after == before + {k};
    } else {
      assert after == before;
    }
  }

  /** The first loop of `getStatistics`: visits every cell once and bumps
      `total` for an available cell and the counter of its status. */
  method CountCells(m: map<CellKey, Cell>) returns (s: Stats)
    ensures s.total == |Counted(m, m.Keys, AnyStatus)|
    ensures s.free == |Counted(m, m.Keys, Exactly(Free))|
    ensures s.overloaded == |Counted(m, m.Keys, Exactly(Overloaded))|
    ensures s.limited == |Counted(m, m.Keys, Exactly(Limited))|
    ensures s.incapacitated == |Counted(m, m.Keys, Exactly(Incapacitated))|
    ensures s.totalPva == 0
  {
    s := Stats(0, 0, 0, 0, 0, 0);
    var todo := m.Keys;
    while todo != {}
      invariant todo <= m.Keys
      invariant s.total == |Counted(m, m.Keys - todo, AnyStatus)|
      invariant s.free == |Counted(m, m.Keys - todo, Exactly(Free))|
      invariant s.overloaded == |Counted(m, m.Keys - todo, Exactly(Overloaded))|
      invariant s.limited == |Counted(m, m.Keys - todo, Exactly(Limited))|
      invariant s.incapacitated == |Counted(m, m.Keys - todo, Exactly(Incapacitated))|
      invariant s.totalPva == 0
      decreases todo
    {
      var k :| k in todo;
      CountedStep(m, todo, k, AnyStatus);
      CountedStep(m, todo, k, Exactly(Free));
      CountedStep(m, todo, k, Exactly(Overloaded));
      CountedStep(m, todo, k, Exactly(Limited));
      CountedStep(m, todo, k, Exactly(Incapacitated));
      var data := m[k];
      if data.available {
        s := s.(total := s.total + 1);
        match data.status
        case Free => s := s.(free := s.free + 1);
        case Overloaded => s := s.(overloaded := s.overloaded + 1);
        case Limited => s := s.(limited := s.limited + 1);
        case Incapacitated => s := s.(incapacitated := s.incapacitated + 1);
        case _ =>
      }
      todo := todo - {k};
    }
    assert m.Keys - {} == m.Keys;
  }

  /** The second loop of `getStatistics`: adds up the lengths of all PVA lists. */
  method SumListLengths(p: map<CellKey, seq<Pva>>) returns (n: nat)
    ensures n == Fold.SumOver(p.Keys, ListLength(p))
  {
    n := 0;
    var pending := p.Keys;
    while pending != {}
      invariant pending <= p.Keys
      invariant n + Fold.SumOver(pending, ListLength(p)) == Fold.SumOver(p.Keys, ListLength(p))
      decreases pending
    {
      var k :| k in pending;
      Fold.SumOverRemove(pending, k, ListLength(p));
      n := n + |p[k]|;
      pending := pending - {k};
    }
  }

  // ---------------------------------------------------------------------
  // Triage ordering and per-category counts of a cell's PVA list

  /** The sample notifications are ordered on the arrival time in their
      logistics part. */
  function SampleOrderKey(p: Pva): Triage.SortKey {
    Triage.SortKey(p.triageCategory, p.logistics.arrivalTime)
  }

  function InCategory(c: int): Pva -> bool { (p: Pva) => p.triageCategory == c }

  /** `list.filter(p => p.triageCategory === c).length`. */
  function CategoryCount(list: seq<Pva>, c: int): nat {
    |Seqs.Filter(list, InCategory(c))|
  }

  /** When every category is 1, 2 or 3, the three badges account for the
      whole list. */
  lemma {:induction false} CategoryCountsCoverList(list: seq<Pva>)
    requires forall i :: 0 <= i < |list| ==> 1 <= list[i].triageCategory <= 3
    ensures CategoryCount(list, 1) + CategoryCount(list, 2) + CategoryCount(list, 3) == |list|
  {
    if list != [] {
      CategoryCountsCoverList(list[1..]);
    }
  }

  /** The sorted sample list holds exactly the generated notifications,
      ordered by category and then arrival, ties in generation order. */
  lemma SampleSortOrdersAndPermutes(list: seq<Pva>)
    ensures multiset(Triage.Sort(list, SampleOrderKey)) == multiset(list)
    ensures forall i, j :: 0 <= i < j < |Triage.Sort(list, SampleOrderKey)| ==>
      Triage.Compare(SampleOrderKey(Triage.Sort(list, SampleOrderKey)[i]), SampleOrderKey(Triage.Sort(list, SampleOrderKey)[j])) <= 0
    ensures forall k :: Triage.KeyClass(Triage.Sort(list, SampleOrderKey), SampleOrderKey, k) == Triage.KeyClass(list, SampleOrderKey, k)
  {
    Triage.SortPermutes(list, SampleOrderKey);
    Triage.SortSorts(list, SampleOrderKey);
    forall k ensures Triage.KeyClass(Triage.Sort(list, SampleOrderKey), SampleOrderKey, k) == Triage.KeyClass(list, SampleOrderKey, k) {
      Triage.SortIsStable(list, SampleOrderKey, k);
    }
  }

  /** Sorting a list does not change its per-category counts. */
  lemma CategoryCountsSurviveSort(list: seq<Pva>, c: int)
    ensures CategoryCount(Triage.Sort(list, SampleOrderKey), c) == CategoryCount(list, c)
  {
    Seqs.FilterLength(list, InCategory(c));
    Seqs.FilterLength(Triage.Sort(list, SampleOrderKey), InCategory(c));
    Triage.SortKeepsCounts(list, SampleOrderKey, InCategory(c));
  }

  // ---------------------------------------------------------------------
  // Update rules

  /** `handleStatusUpdate` on the map: only `key` changes; its status,
      comment, timestamp, author and skip flag are overwritten, everything
      else the cell held is kept. */
  function WithStatus(m: map<CellKey, Cell>, key: CellKey, status: StatusKind, comment: string,
                      skipAutoFree: bool, now: int): (r: map<CellKey, Cell>)
    ensures r.Keys == m.Keys + {key}
    ensures forall k :: k in m && k != key ==> r[k] == m[k]
    ensures r[key].status == status && r[key].comment == comment && r[key].lastUpdate == now
    ensures r[key].updatedBy == "Leitstelle" && r[key].skipAutoFree == skipAutoFree
    ensures r[key].available == StoredCell(m, key).available
    ensures r[key].futureOverloads == StoredCell(m, key).futureOverloads
    ensures r[key].pvaCount == StoredCell(m, key).pvaCount
  {
    m[key := StoredCell(m, key).(status := status, comment := comment, lastUpdate := now,
                                 updatedBy := "Leitstelle", skipAutoFree := skipAutoFree)]
  }

  /** After a status update the cell shows the new status if it was
      available, and still shows not_available otherwise. */
  lemma StatusUpdateShows(m: map<CellKey, Cell>, key: CellKey, status: StatusKind, comment: string,
                          skipAutoFree: bool, now: int)
    ensures var r := WithStatus(m, key, status, comment, skipAutoFree, now);
      CellStatus(r, key.hospitalId, key.itemId) ==
        if key in m && m[key].available then status else NotAvailable
  {
  }

  /** The `action` argument of `handlePVASave`; any other string is `Unknown`. */
  datatype PvaAction = AddPva | EditPva | DeletePva | Unknown

  /** The PVA list of `key`, or the empty list when there is none. */
  function ListAt(p: map<CellKey, seq<Pva>>, key: CellKey): seq<Pva> {
    if key in p then p[key] else []
  }

  /** The cell's new list: appended, replaced by id, filtered by id, or kept. */
  function PvaListAfter(list: seq<Pva>, item: Pva, action: PvaAction): (r: seq<Pva>)
    ensures action == AddPva ==> r == list + [item]
    ensures action == EditPva ==> |r| == |list|
    ensures action == EditPva ==>
      forall i :: 0 <= i < |list| ==> r[i] == if list[i].id == item.id then item else list[i]
    ensures action == DeletePva ==> r == Registry.RemoveById(list, item.id, PvaId)
    ensures action == DeletePva ==> |r| == |list| - Registry.CountId(list, item.id, PvaId)
    ensures action == DeletePva ==> |r| == |Seqs.Positions(list, Registry.LacksId(PvaId, item.id), 0)|
    ensures action == DeletePva ==> forall i :: 0 <= i < |r| ==>
      r[i] == list[Seqs.Positions(list, Registry.LacksId(PvaId, item.id), 0)[i]]
    ensures action == DeletePva ==> forall x :: x in r <==> x in list && x.id != item.id
    ensures action == Unknown ==> r == list
  {
    match action
    case AddPva => Registry.Apply(list, Registry.Add(item), PvaId)
    case EditPva => Registry.Apply(list, Registry.Edit(item), PvaId)
    case DeletePva =>
      Registry.RemoveByIdRemovesExactly(list, item.id, PvaId);
      Registry.Apply(list, Registry.Delete(item.id), PvaId)
    case Unknown => list
  }

  /** `handlePVASave` on the PVA map: an unknown action returns the map as
      it was; otherwise only `key`'s list changes. */
  function PvaDataAfter(p: map<CellKey, seq<Pva>>, key: CellKey, item: Pva, action: PvaAction): (r: map<CellKey, seq<Pva>>)
    ensures action == Unknown ==> r == p
    ensures action != Unknown ==> r.Keys == p.Keys + {key} && r[key] == PvaListAfter(ListAt(p, key), item, action)
    ensures forall k :: k != key ==> (k in r <==> k in p)
    ensures forall k :: k in p && k != key ==> r[k] == p[k]
  {
    if action == Unknown then p else p[key := PvaListAfter(ListAt(p, key), item, action)]
  }

  /** The count written into the cell, computed from the list as it was
      before the save, and never negative. */
  function PvaCountAfter(before: nat, action: PvaAction): nat {
    match action
    case AddPva => before + 1
    case DeletePva => if before == 0 then 0 else before - 1
    case _ => before
  }

  /** The stored count matches the new list except after deleting an id
      that is absent or occurs more than once in a non-empty list. */
  lemma PvaCountMatchesList(list: seq<Pva>, item: Pva, action: PvaAction)
    ensures PvaCountAfter(|list|, action) == |PvaListAfter(list, item, action)| <==>
      (action == DeletePva ==> list == [] || Registry.CountId(list, item.id, PvaId) == 1)
  {
    if action == DeletePva {
      Registry.RemoveCountsMatching(list, item.id, PvaId);
    }
  }

  /** Deleting an id that is not in a non-empty list leaves the list as it
      was yet lowers the stored count. */
  lemma PvaCountDriftsOnAbsentDelete(list: seq<Pva>, item: Pva)
    requires list != [] && Registry.CountId(list, item.id, PvaId) == 0
    ensures PvaListAfter(list, item, DeletePva) == list
    ensures PvaCountAfter(|list|, DeletePva) == |list| - 1
  {
    Registry.DeleteAbsentIsNoOp(list, item.id, PvaId);
  }

  /** Writes `count` into the cell of `key`, keeping everything else. */
  function WithPvaCount(m: map<CellKey, Cell>, key: CellKey, count: nat): (r: map<CellKey, Cell>)
    ensures r.Keys == m.Keys + {key}
    ensures forall k :: k in m && k != key ==> r[k] == m[k]
    ensures r[key] == StoredCell(m, key).(pvaCount := Some(count))
  {
    m[key := StoredCell(m, key).(pvaCount := Some(count))]
  }

  /** The `(type, data, action)` triple passed to `handleAdminSave`, typed
      by registry; a `delete` carries only the id. */
  datatype AdminSave =
    | HospitalSave(hospitalAction: Registry.Action<Hospital>)
    | CapacitySave(capacityAction: Registry.Action<Item>)
    | ServiceSave(serviceAction: Registry.Action<Item>)
    | SystemSave(config: SystemConfig)

  // ---------------------------------------------------------------------
  // The application state

  class MatrixState {
    var hospitals: seq<Hospital>
    var capacities: seq<Item>
    var serviceGroups: seq<Item>
    var matrixData: map<CellKey, Cell>
    var pvaData: map<CellKey, seq<Pva>>
    var selectedCell: Option<CellKey>
    var statusDialogOpen: bool
    var pvaDialogOpen: bool
    var blackWhiteMode: bool
    var lastUpdate: int

    /** The state before the sample data is generated. */
    constructor (now: int)
      ensures hospitals == InitialHospitals && capacities == InitialCapacities
      ensures serviceGroups == InitialServiceGroups
      ensures matrixData == map[] && pvaData == map[] && selectedCell == None
      ensures !statusDialogOpen && !pvaDialogOpen && !blackWhiteMode && lastUpdate == now
    {
      hospitals, capacities, serviceGroups := InitialHospitals, InitialCapacities, InitialServiceGroups;
      matrixData, pvaData, selectedCell := map[], map[], None;
      statusDialogOpen, pvaDialogOpen, blackWhiteMode := false, false, false;
      lastUpdate := now;
    }

    /** `handleCellClick`: selects the cell and opens the PVA dialog when
      the cell has notifications, the status dialog otherwise. */
    method HandleCellClick(hospitalId: int, itemId: int)
      modifies this`selectedCell, this`statusDialogOpen, this`pvaDialogOpen
      ensures selectedCell == Some(CellKey(hospitalId, itemId))
      ensures |ListAt(pvaData, CellKey(hospitalId, itemId))| > 0 ==>
        pvaDialogOpen && statusDialogOpen == old(statusDialogOpen)
      ensures |ListAt(pvaData, CellKey(hospitalId, itemId))| == 0 ==>
        statusDialogOpen && pvaDialogOpen == old(pvaDialogOpen)
    {
      var key := CellKey(hospitalId, itemId);
      selectedCell := Some(key);
      if key in pvaData && |pvaData[key]| > 0 {
        pvaDialogOpen := true;
      } else {
        statusDialogOpen := true;
      }
    }

    /** `handlePVAClick`: selects the cell and opens the PVA dialog. */
    method HandlePvaClick(hospitalId: int, itemId: int)
      modifies this`selectedCell, this`pvaDialogOpen
      ensures selectedCell == Some(CellKey(hospitalId, itemId)) && pvaDialogOpen
    {
      selectedCell := Some(CellKey(hospitalId, itemId));
      pvaDialogOpen := true;
    }

    /** `handleStatusUpdate` for the selected cell; closes the status dialog. */
    method HandleStatusUpdate(status: StatusKind, comment: string, skipAutoFree: bool, now: int)
      requires selectedCell.Some?
      modifies this`matrixData, this`lastUpdate, this`statusDialogOpen
      ensures matrixData == WithStatus(old(matrixData), selectedCell.value, status, comment, skipAutoFree, now)
      ensures lastUpdate == now && !statusDialogOpen
    {
      matrixData := WithStatus(matrixData, selectedCell.value, status, comment, skipAutoFree, now);
      lastUpdate := now;
      statusDialogOpen := false;
    }

    /** `handlePVASave` for the selected cell: updates its list and writes
      the count derived from the list as it was before. */
    method HandlePvaSave(item: Pva, action: PvaAction)
      requires selectedCell.Some?
      modifies this`pvaData, this`matrixData
      ensures pvaData == PvaDataAfter(old(pvaData), selectedCell.value, item, action)
      ensures matrixData == WithPvaCount(old(matrixData), selectedCell.value,
                                         PvaCountAfter(|ListAt(old(pvaData), selectedCell.value)|, action))
    {
      var key := selectedCell.value;
      var before := ListAt(pvaData, key);
      pvaData := PvaDataAfter(pvaData, key, item, action);
      matrixData := WithPvaCount(matrixData, key, PvaCountAfter(|before|, action));
    }

    /** `handleAdminSave`: applies the action to the registry its type names;
      a system save changes nothing. */
    method HandleAdminSave(save: AdminSave)
      modifies this`hospitals, this`capacities, this`serviceGroups
      ensures hospitals == if save.HospitalSave? then Registry.Apply(old(hospitals), save.hospitalAction, HospitalId) else old(hospitals)
      ensures capacities == if save.CapacitySave? then Registry.Apply(old(capacities), save.capacityAction, ItemId) else old(capacities)
      ensures serviceGroups == if save.ServiceSave? then Registry.Apply(old(serviceGroups), save.serviceAction, ItemId) else old(serviceGroups)
    {
      match save
      case HospitalSave(a) => hospitals := Registry.Apply(hospitals, a, HospitalId);
      case CapacitySave(a) => capacities := Registry.Apply(capacities, a, ItemId);
      case ServiceSave(a) => serviceGroups := Registry.Apply(serviceGroups, a, ItemId);
      case SystemSave(_) =>
    }

    /** `getStatistics` over the current cells and PVA lists. */
    method GetStatistics() returns (s: Stats)
      ensures s == StatisticsOf(matrixData, pvaData)
    {
      s := CountCells(matrixData);
      var n := SumListLengths(pvaData);
      s := s.(totalPva := n);
    }
  }
}
