// The Trello integration: environment configuration, the list-id table, the
// card-to-vehicle mapping, and the choice between demonstration, live and
// offline data. The HTTP requests are an abstract outcome.

module Trello {
  import opened Wrappers
  import opened Text
  import opened Delivery
  import opened Workshop

  // ---------------------------------------------------------------------------
  // Environment
  // ---------------------------------------------------------------------------

  /** The global `process`: not declared at all (a browser), or declared with an
      `env` object that may be missing. */
  datatype ProcessGlobal = Undeclared | Declared(env: Option<map<string, string>>)

  /** Reading `process` when it is not declared throws a ReferenceError. */
  datatype EnvResult = Value(value: string) | ProcessNotDefined

  /** `env?.[key]`, with a missing object or key read as the falsy empty string. */
  function EnvValue(env: Option<map<string, string>>, key: string): (r: string)
    ensures env.Some? && key in env.value ==> r == env.value[key]
    ensures !(env.Some? && key in env.value) ==> r == ""
  {
    if env.Some? && key in env.value then env.value[key] else ""
  }

  /** `getEnv`: the Vite environment if it has a non-empty value for the key,
      otherwise the process environment, otherwise the empty string. */
  function GetEnv(metaEnv: Option<map<string, string>>, process: ProcessGlobal, key: string): (r: EnvResult)
    ensures EnvValue(metaEnv, key) != "" ==> r == Value(EnvValue(metaEnv, key))
    ensures EnvValue(metaEnv, key) == "" && process.Declared? ==> r == Value(EnvValue(process.env, key))
    ensures r == ProcessNotDefined <==> EnvValue(metaEnv, key) == "" && process.Undeclared?
  {
    var first := EnvValue(metaEnv, key);
    if first != "" then Value(first)
    else
      match process
      case Undeclared => ProcessNotDefined
      case Declared(env) =>
        var second := EnvValue(env, key);
        if second != "" then Value(second) else Value("")
  }

  /** The value is the first non-empty source, and empty only when both are. */
  lemma GetEnvFirstNonEmpty(metaEnv: Option<map<string, string>>, env: Option<map<string, string>>, key: string)
    ensures var r := GetEnv(metaEnv, Declared(env), key);
      r.Value? &&
      (r.value == "" <==> EnvValue(metaEnv, key) == "" && EnvValue(env, key) == "") &&
      (EnvValue(metaEnv, key) != "" ==> r.value == EnvValue(metaEnv, key)) &&
      (EnvValue(metaEnv, key) == "" ==> r.value == EnvValue(env, key))
  {
  }

  const ApiKeyName := "VITE_TRELLO_API_KEY"
  const TokenName := "VITE_TRELLO_TOKEN"
  const BoardIdName := "VITE_TRELLO_BOARD_ID"

  datatype Config = Config(apiKey: string, token: string, boardId: string)

  /** The three module-level constants; `None` when reading one of them throws. */
  function LoadConfig(metaEnv: Option<map<string, string>>, process: ProcessGlobal): (r: Option<Config>)
    ensures r.None? <==>
      process.Undeclared? &&
      (EnvValue(metaEnv, ApiKeyName) == "" || EnvValue(metaEnv, TokenName) == "" || EnvValue(metaEnv, BoardIdName) == "")
    ensures r.Some? ==>
      GetEnv(metaEnv, process, ApiKeyName) == Value(r.value.apiKey) &&
      GetEnv(metaEnv, process, TokenName) == Value(r.value.token) &&
      GetEnv(metaEnv, process, BoardIdName) == Value(r.value.boardId)
  {
    match GetEnv(metaEnv, process, ApiKeyName)
    case ProcessNotDefined => None
    case Value(apiKey) =>
      match GetEnv(metaEnv, process, TokenName)
      case ProcessNotDefined => None
      case Value(token) =>
        match GetEnv(metaEnv, process, BoardIdName)
        case ProcessNotDefined => None
        case Value(boardId) => Some(Config(apiKey, token, boardId))
  }

  predicate IsConfigured(c: Config) {
    c.apiKey != "" && c.token != "" && c.boardId != ""
  }

  // ---------------------------------------------------------------------------
  // Decoded API payloads
  // ---------------------------------------------------------------------------

  datatype TrelloList = TrelloList(id: string, name: string)

  datatype Member = Member(fullName: string)

  /** A card's due date, parsed, together with its day/month text in pt-BR. */
  datatype DueStamp = DueStamp(date: DueDate, shown: string)

  /** A card; `due` is absent for a null or empty due field, `lastActivity` is the
      formatted time of the last activity. */
  datatype Card = Card(
    id: string,
    name: string,
    idList: string,
    due: Option<DueStamp>,
    members: seq<Member>,
    lastActivity: string)

  // ---------------------------------------------------------------------------
  // List-id table
  // ---------------------------------------------------------------------------

  /** The list at `j` is the last one with its id. */
  predicate IsLastWithItsId(lists: seq<TrelloList>, j: int) {
    0 <= j < |lists| && forall k :: j < k < |lists| ==> lists[k].id != lists[j].id
  }

  /** The table the `reduce` builds: each list, in order, sets its id to its name. */
  function ListMapOf(lists: seq<TrelloList>): (m: map<string, string>)
    ensures forall j :: 0 <= j < |lists| ==> lists[j].id in m
    ensures forall id :: id in m ==> exists j :: 0 <= j < |lists| && lists[j].id == id
    decreases |lists|
  {
    if lists == [] then map[]
    else
      var init := lists[..|lists| - 1];
      var last := lists[|lists| - 1];
      assert forall j :: 0 <= j < |lists| - 1 ==> init[j] == lists[j];
      ListMapOf(init)[last.id := last.name]
  }

  /** The list that is last with its id is the one whose name the table keeps. */
  lemma {:induction false} ListMapLastWins(lists: seq<TrelloList>, j: int)
    requires IsLastWithItsId(lists, j)
    ensures ListMapOf(lists)[lists[j].id] == lists[j].name
    decreases |lists|
  {
    if j < |lists| - 1 {
      var init := lists[..|lists| - 1];
      assert init[j] == lists[j];
      assert IsLastWithItsId(init, j);
      ListMapLastWins(init, j);
    }
  }

  /** The fold that sets each list's id to its name, in list order, starting from
      an empty table. */
  method BuildListMap(lists: seq<TrelloList>) returns (listMap: map<string, string>)
    ensures listMap == ListMapOf(lists)
    ensures forall j :: 0 <= j < |lists| ==> lists[j].id in listMap
    ensures forall j :: IsLastWithItsId(lists, j) ==> listMap[lists[j].id] == lists[j].name
  {
    listMap := map[];
    var i := 0;
    while i < |lists|
      invariant 0 <= i <= |lists|
      invariant listMap == ListMapOf(lists[..i])
    {
      assert lists[..i + 1][..i] == lists[..i];
      listMap := listMap[lists[i].id := lists[i].name];
      i := i + 1;
    }
    assert lists[..i] == lists;
    forall j | IsLastWithItsId(lists, j) ensures listMap[lists[j].id] == lists[j].name {
      ListMapLastWins(lists, j);
    }
  }

  /** Every key's name is the name of the last list with that id. */
  lemma LastListWins(lists: seq<TrelloList>, id: string)
    requires id in ListMapOf(lists)
    ensures exists j :: IsLastWithItsId(lists, j) && lists[j].id == id && ListMapOf(lists)[id] == lists[j].name
  {
    var j :| 0 <= j < |lists| && lists[j].id == id;
    while j + 1 < |lists| && exists k :: j < k < |lists| && lists[k].id == id
      invariant 0 <= j < |lists| && lists[j].id == id
      decreases |lists| - j
    {
      var k :| j < k < |lists| && lists[k].id == id;
      j := k;
    }
    assert IsLastWithItsId(lists, j);
    ListMapLastWins(lists, j);
  }

  // ---------------------------------------------------------------------------
  // Card to vehicle
  // ---------------------------------------------------------------------------

  const DefaultModel := "Veículo"
  const DefaultPlate := "---"
  const DefaultClient := "Cliente"
  const DefaultStage := "Aguardando Avaliação"
  const NoDelivery := "---"
  const DefaultMechanic := "Pátio"

  /** `card.name.split('-').map(p => p.trim())`. */
  function NameParts(name: string): (parts: seq<string>)
    ensures |parts| == |Split(name, '-')|
    ensures forall i :: 0 <= i < |parts| ==> parts[i] == Trim(Split(name, '-')[i]) && IsTrimmed(parts[i])
  {
    var raw := Split(name, '-');
    seq(|raw|, i requires 0 <= i < |raw| => Trim(raw[i]))
  }

  /** `parts[i] || default`: a missing part and an empty part both give the default. */
  function Field(parts: seq<string>, i: nat, default: string): (r: string)
    ensures i < |parts| && parts[i] != "" ==> r == parts[i]
    ensures i >= |parts| || parts[i] == "" ==> r == default
  {
    if i < |parts| && parts[i] != "" then parts[i] else default
  }

  /** `listMap[card.idList] || 'Aguardando Avaliação'`. */
  function StageFor(listMap: map<string, string>, idList: string): (r: string)
    ensures r != ""
    ensures idList in listMap && listMap[idList] != "" ==> r == listMap[idList]
    ensures !(idList in listMap && listMap[idList] != "") ==> r == DefaultStage
  {
    if idList in listMap && listMap[idList] != "" then listMap[idList] else DefaultStage
  }

  /** `card.members?.[0]?.fullName || 'Pátio'`. */
  function MechanicOf(members: seq<Member>): (r: string)
    ensures r != ""
    ensures |members| > 0 && members[0].fullName != "" ==> r == members[0].fullName
    ensures !(|members| > 0 && members[0].fullName != "") ==> r == DefaultMechanic
  {
    if |members| > 0 && members[0].fullName != "" then members[0].fullName else DefaultMechanic
  }

  lemma DefaultsTrimmed()
    ensures IsTrimmed(DefaultModel) && IsTrimmed(DefaultPlate) && IsTrimmed(DefaultClient)
  {
  }

  /** The body of `cards.map`. */
  function CardToVehicle(card: Card, listMap: map<string, string>): (v: Vehicle)
    ensures v.id == card.id
    ensures var parts := NameParts(card.name);
      v.model == Field(parts, 0, DefaultModel) && v.plate == Field(parts, 1, DefaultPlate) &&
      v.client == Field(parts, 2, DefaultClient)
    ensures v.model != "" && v.plate != "" && v.client != ""
    ensures IsTrimmed(v.model) && IsTrimmed(v.plate) && IsTrimmed(v.client)
    ensures v.stage == StageFor(listMap, card.idList)
    ensures v.mechanic == MechanicOf(card.members)
    ensures card.due.None? ==> v.deliveryDate == NoDelivery && v.rawDueDate.None?
    ensures card.due.Some? ==> v.deliveryDate == card.due.value.shown && v.rawDueDate == Some(card.due.value.date)
    ensures v.lastActivity == card.lastActivity
  {
    var parts := NameParts(card.name);
    DefaultsTrimmed();
    Vehicle(
      card.id,
      Field(parts, 0, DefaultModel),
      Field(parts, 1, DefaultPlate),
      Field(parts, 2, DefaultClient),
      StageFor(listMap, card.idList),
      if card.due.Some? then card.due.value.shown else NoDelivery,
      if card.due.Some? then Some(card.due.value.date) else None,
      MechanicOf(card.members),
      card.lastActivity)
  }

  /** `cards.map(...)`: one vehicle per card, in card order. */
  function MapCards(cards: seq<Card>, listMap: map<string, string>): (vs: seq<Vehicle>)
    ensures |vs| == |cards|
    ensures forall i :: 0 <= i < |cards| ==> vs[i] == CardToVehicle(cards[i], listMap) && vs[i].id == cards[i].id
  {
    seq(|cards|, i requires 0 <= i < |cards| => CardToVehicle(cards[i], listMap))
  }

  /** A value that survives the name parser unchanged: trimmed, non-empty, no '-'. */
  predicate IsField(s: string) {
    s != "" && IsTrimmed(s) && '-' !in s
  }

  /** Writing the card name as "model-plate-client" and parsing it gives the three
      fields back. */
  lemma {:induction false} CardNameRoundTrip(card: Card, listMap: map<string, string>, model: string, plate: string, client: string)
    requires IsField(model) && IsField(plate) && IsField(client)
    requires card.name == Join([model, plate, client], '-')
    ensures var v := CardToVehicle(card, listMap); v.model == model && v.plate == plate && v.client == client
  {
    var fields := [model, plate, client];
    SplitJoin(fields, '-');
    TrimOfTrimmed(model);
    TrimOfTrimmed(plate);
    TrimOfTrimmed(client);
    var parts := NameParts(card.name);
    assert parts[0] == model && parts[1] == plate && parts[2] == client;
  }

  /** A plate written with its own hyphen splits in two: the digits land in the
      client field and the client's name is dropped. */
  lemma {:induction false} HyphenatedPlateShiftsFields(card: Card, listMap: map<string, string>,
                                                      model: string, letters: string, digits: string, client: string)
    requires IsField(model) && IsField(letters) && IsField(digits) && IsField(client)
    requires card.name == Join([model, letters + "-" + digits, client], '-')
    ensures var v := CardToVehicle(card, listMap); v.model == model && v.plate == letters && v.client == digits
  {
    var fields := [model, letters, digits, client];
    assert [model, letters + "-" + digits, client][1..] == [letters + "-" + digits, client];
    assert [letters + "-" + digits, client][1..] == [client];
    assert fields[1..] == [letters, digits, client] && fields[1..][1..] == [digits, client];
    assert fields[1..][1..][1..] == [client];
    assert Join([digits, client], '-') == digits + "-" + client;
    assert Join([letters, digits, client], '-') == letters + "-" + (digits + "-" + client);
    assert Join(fields, '-') == model + "-" + (letters + "-" + (digits + "-" + client));
    assert Join([letters + "-" + digits, client], '-') == (letters + "-" + digits) + "-" + client;
    assert card.name == model + "-" + ((letters + "-" + digits) + "-" + client);
    assert Join(fields, '-') == card.name;
    SplitJoin(fields, '-');
    TrimOfTrimmed(model);
    TrimOfTrimmed(letters);
    TrimOfTrimmed(digits);
    var parts := NameParts(card.name);
    assert parts[0] == model && parts[1] == letters && parts[2] == digits;
  }

  /** A name without any '-' is all model: plate and client take their defaults. */
  lemma NameWithoutDash(card: Card, listMap: map<string, string>)
    requires '-' !in card.name
    ensures var v := CardToVehicle(card, listMap);
      v.model == (if Trim(card.name) == "" then DefaultModel else Trim(card.name)) &&
      v.plate == DefaultPlate && v.client == DefaultClient
  {
    SplitNoSeparator(card.name, '-');
  }

  // ---------------------------------------------------------------------------
  // Choosing the data set
  // ---------------------------------------------------------------------------

  /** What the two requests and their decoding produced: the lists and cards, or a
      failure (a response that is not ok, a rejected request, or a body that does
      not decode). */
  datatype FetchOutcome = Fetched(lists: seq<TrelloList>, cards: seq<Card>) | Failed

  const DemoBoard := "Rei do ABS • Modo Demonstração"
  const LiveBoard := "Rei do ABS • Gestão de Pátio"
  const OfflineBoard := "Rei do ABS • Modo Offline"

  /** `fetchWorkshopData`, with the requests replaced by their outcome and the mock
      vehicles passed in. */
  function FetchWorkshopData(config: Config, outcome: FetchOutcome, mock: seq<Vehicle>): (r: WorkshopData)
    ensures !IsConfigured(config) ==> r == WorkshopData(DemoBoard, mock)
    ensures IsConfigured(config) && outcome.Failed? ==> r == WorkshopData(OfflineBoard, mock)
    ensures IsConfigured(config) && outcome.Fetched? ==>
      r == WorkshopData(LiveBoard, MapCards(outcome.cards, ListMapOf(outcome.lists)))
  {
    if !IsConfigured(config) then WorkshopData(DemoBoard, mock)
    else
      match outcome
      case Failed => WorkshopData(OfflineBoard, mock)
      case Fetched(lists, cards) => WorkshopData(LiveBoard, MapCards(cards, ListMapOf(lists)))
  }

  /** The board name tells which path was taken, and only the live board shows cards. */
  lemma BoardNameTellsPath(config: Config, outcome: FetchOutcome, mock: seq<Vehicle>)
    ensures var r := FetchWorkshopData(config, outcome, mock);
      (r.boardName == DemoBoard <==> !IsConfigured(config)) &&
      (r.boardName == OfflineBoard <==> IsConfigured(config) && outcome.Failed?) &&
      (r.boardName == LiveBoard <==> IsConfigured(config) && outcome.Fetched?) &&
      (r.boardName != LiveBoard ==> r.vehicles == mock)
  {
    assert |DemoBoard| == 30 && |LiveBoard| == 28 && |OfflineBoard| == 25;
  }

  /** On the live path there is one vehicle per card, in card order, with its id. */
  lemma LiveVehiclesFollowCards(config: Config, lists: seq<TrelloList>, cards: seq<Card>, mock: seq<Vehicle>)
    requires IsConfigured(config)
    ensures var vs := FetchWorkshopData(config, Fetched(lists, cards), mock).vehicles;
      |vs| == |cards| && forall i :: 0 <= i < |cards| ==> vs[i].id == cards[i].id
  {
  }
}
