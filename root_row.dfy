// The top-level row component (VehicleRow.tsx): colour, stage icons and label,
// delivery status and the model title of one vehicle.

module RootRow {
  import opened Text
  import opened StageRules
  import opened Styles
  import opened Delivery
  import opened Workshop

  /** `getStageColors`: the chain of early returns on the lower-cased label. */
  function GetStageColors(stage: string): (r: Tone)
    ensures r == RootTone(Classify(stage))
  {
    var s := Lower(stage);
    ClassifyChain(stage);
    if Contains(s, NaoAprovado) || Contains(s, NaoAprovadoPlain) then PurpleStrong
    else if Contains(s, Garantia) then RedStrong
    else if Contains(s, Avaliacao) && Contains(s, Aguardando) then ZincFaint
    else if Contains(s, Avaliacao) || Contains(s, Aprovacao) then Yellow
    else if Contains(s, Servico) then Blue
    else if Contains(s, Aprovado) then OrangeStrong
    else if Contains(s, Pecas) then Cyan
    else if Contains(s, Teste) then Green
    else if Contains(s, Finalizado) then ZincMuted
    else ZincPlain
  }

  /** The spinning clock: the label starts with 'aguardando' (no trimming first),
      and it is neither a test drive nor a rejection. */
  predicate ShowsAwaitingClock(stage: string)
    ensures ShowsAwaitingClock(stage) <==>
      StartsWith(Lower(stage), Aguardando) && !Contains(Lower(stage), Teste) && Classify(stage) != Rejected
  {
    var f := Flags(stage);
    f.awaiting && !f.inTest && !f.rejected
  }

  /** How loudly the delivery cell is drawn. */
  datatype Emphasis =
    | Alarm   // large, white, glowing and pulsing: overdue
    | Pulse   // pulsing: due today
    | Muted   // small and faded: anything else

  function EmphasisOf(status: Status): (e: Emphasis)
    ensures e == Alarm <==> status.isDelayed
    ensures e == Pulse <==> status.highlight && !status.isDelayed
  {
    if status.isDelayed then Alarm else if status.highlight then Pulse else Muted
  }

  /** Everything the row shows, apart from markup. */
  datatype RowView = RowView(
    tone: Tone,
    title: string,
    plate: string,
    client: string,
    pulseDot: bool,       // the pinging dot of a car in service
    clockIcon: bool,
    checkMark: bool,
    crossMark: bool,
    carIcon: bool,        // the driving car of a test drive
    stageText: string,
    compactStage: bool,   // the smaller font for a long stage label
    delivery: Status,
    emphasis: Emphasis,
    mechanic: string)

  function View(v: Vehicle, today: int): (r: RowView)
    ensures r.tone == RootTone(Classify(v.stage))
    ensures r.crossMark <==> Classify(v.stage) == Rejected
    ensures r.checkMark <==> Contains(Lower(v.stage), Aprovado) && Classify(v.stage) != Rejected
    ensures r.clockIcon <==>
      StartsWith(Lower(v.stage), Aguardando) && !Contains(Lower(v.stage), Teste) && Classify(v.stage) != Rejected
    ensures r.carIcon <==> Contains(Lower(v.stage), Teste)
    ensures r.pulseDot <==> Contains(Lower(v.stage), Servico)
    ensures r.pulseDot ==> Classify(v.stage) in {Rejected, Warranty, AwaitingEvaluation, PendingDecision, InService}
    ensures r.stageText == RejectedLabel <==> r.crossMark
    ensures !r.crossMark ==> r.stageText == v.stage
    ensures |r.stageText| > 15 ==> r.compactStage
    ensures r.compactStage ==> |r.stageText| > 7
    ensures r.delivery == DeliveryStatus(v.rawDueDate, v.deliveryDate, today)
    ensures r.emphasis == Alarm <==> Overdue(v.rawDueDate, today)
    ensures r.emphasis == Pulse <==> DueBy(v.rawDueDate, today) && !Overdue(v.rawDueDate, today)
    ensures r.title == ModelTitle(v.model) && IsTrimmed(r.title)
    ensures r.plate == v.plate && r.client == v.client && r.mechanic == v.mechanic
  {
    var f := Flags(v.stage);
    var shown := DisplayStage(v.stage);
    var status := DeliveryStatus(v.rawDueDate, v.deliveryDate, today);
    RowView(
      GetStageColors(v.stage),
      ModelTitle(v.model),
      v.plate,
      v.client,
      f.inService,
      ShowsAwaitingClock(v.stage),
      f.mentionsApproved && !f.rejected,
      f.rejected,
      f.inTest,
      shown,
      Utf16Length(shown) > 15,
      status,
      EmphasisOf(status),
      v.mechanic)
  }

  /** A rejected label mentions 'aprovado', yet its row is purple, crossed, titled
      "Não Aprovado", and shows neither the check mark nor the clock. */
  lemma RejectedRow(v: Vehicle, today: int)
    requires IsRejectedText(Lower(v.stage))
    ensures Contains(Lower(v.stage), Aprovado)
    ensures var r := View(v, today);
      r.tone == PurpleStrong && r.crossMark && !r.checkMark && !r.clockIcon && r.stageText == RejectedLabel
  {
    RejectionHidesApproval(v.stage);
  }

  /** The clock needs the label itself to start with 'aguardando': a leading space hides it. */
  lemma LeadingSpaceHidesClock(stage: string)
    requires |stage| > 0 && IsSpace(stage[0])
    ensures !ShowsAwaitingClock(stage)
  {
    assert Lower(stage)[0] == stage[0];
  }

  /** The check mark and the cross are never shown together. */
  lemma CheckAndCrossExclusive(v: Vehicle, today: int)
    ensures !(View(v, today).checkMark && View(v, today).crossMark)
  {
  }
}
