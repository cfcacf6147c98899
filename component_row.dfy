// The row component under components/ (components/VehicleRow.tsx): the same
// classifier with its own palette, the delivery text as given, and the
// mechanic's name abbreviated.

module ComponentRow {
  import opened Text
  import opened StageRules
  import opened Styles
  import opened Workshop
  import RootRow

  /** `getStageColors` of this component: the same chain, other tones. */
  function GetStageColors(stage: string): (r: Tone)
    ensures r == ComponentTone(Classify(stage))
  {
    var s := Lower(stage);
    ClassifyChain(stage);
    if Contains(s, NaoAprovado) || Contains(s, NaoAprovadoPlain) then PurpleSoft
    else if Contains(s, Garantia) then RedSoft
    else if Contains(s, Avaliacao) && Contains(s, Aguardando) then ZincFaded
    else if Contains(s, Avaliacao) || Contains(s, Aprovacao) then Yellow
    else if Contains(s, Servico) then Blue
    else if Contains(s, Aprovado) then OrangeSoft
    else if Contains(s, Pecas) then Cyan
    else if Contains(s, Teste) then Green
    else if Contains(s, Finalizado) then GreenDeep
    else ZincPlain
  }

  /** The two components run the same rules in the same order: for every label the
      category is one and the same, and only the palette applied to it differs. */
  lemma VariantsShareOrder(stage: string)
    ensures GetStageColors(stage) == ComponentTone(Classify(stage))
    ensures RootRow.GetStageColors(stage) == RootTone(Classify(stage))
    ensures GetStageColors(stage) == RootRow.GetStageColors(stage) <==>
      Classify(stage) !in {Rejected, Warranty, AwaitingEvaluation, Approved, Finalized}
  {
    PalettesDifferAt(Classify(stage));
  }

  // ---------------------------------------------------------------------------
  // Mechanic name
  // ---------------------------------------------------------------------------

  const Yard := "Pátio"
  const ToBeDecided := "TBD"

  /** Names passed through untouched: empty, the yard, and "to be decided". */
  predicate IsPlaceholder(name: string) {
    name == "" || name == Yard || name == ToBeDecided
  }

  /** `${p[0]}` for a part `p`: its first character, or the text "undefined" when
      the part is empty and `p[0]` does not exist. */
  function InitialAsWritten(p: string): (r: string)
    ensures p != [] ==> r == [p[0]]
    ensures p == [] ==> r == "undefined"
  {
    if p == [] then "undefined" else [p[0]]
  }

  /** `formatMechanicName` as written: first part, a space, the first character of
      the second part of the ' '-split, and a full stop. */
  function FormatMechanicNameAsWritten(name: string): (r: string)
    ensures IsPlaceholder(name) ==> r == name
    ensures |Split(name, ' ')| == 1 ==> r == name
    ensures var parts := Split(name, ' ');
      !IsPlaceholder(name) && |parts| > 1 && parts[1] != "" ==> r == parts[0] + " " + [parts[1][0]] + "."
    ensures var parts := Split(name, ' ');
      !IsPlaceholder(name) && |parts| > 1 && parts[1] == "" ==> r == parts[0] + " undefined."
  {
    if IsPlaceholder(name) then name
    else
      var parts := Split(name, ' ');
      if |parts| > 1 then parts[0] + " " + InitialAsWritten(parts[1]) + "." else name
  }

  lemma SplitTrailingSpace()
    ensures Split("Marcos ", ' ') == ["Marcos", ""]
  {
    var parts := ["Marcos", ""];
    assert parts[1..] == [""];
    assert Join(parts, ' ') == "Marcos" + " " + "";
    assert "Marcos" + " " + "" == "Marcos ";
    assert ' ' !in parts[0] && ' ' !in parts[1];
    SplitJoin(parts, ' ');
  }

  /** A trailing space makes the second part empty, and "undefined" appears in the name. */
  lemma TrailingSpaceGivesUndefined()
    ensures FormatMechanicNameAsWritten("Marcos ") == "Marcos undefined."
    ensures 'u' in FormatMechanicNameAsWritten("Marcos ") && 'u' !in "Marcos "
  {
    SplitTrailingSpace();
    var parts := Split("Marcos ", ' ');
    assert !IsPlaceholder("Marcos ");
    assert |parts| > 1 && parts[0] == "Marcos" && parts[1] == "";
    var r := "Marcos" + " " + InitialAsWritten("") + ".";
    assert r == "Marcos undefined.";
    assert FormatMechanicNameAsWritten("Marcos ") == r;
    assert r[7] == 'u';
  }

  /** The non-empty parts, in order: every non-empty part is kept and nothing else. */
  function Words(parts: seq<string>): (w: seq<string>)
    ensures forall x :: x in w <==> x in parts && x != ""
    ensures forall i :: 0 <= i < |w| ==> w[i] != ""
    ensures |w| <= |parts|
  {
    if parts == [] then []
    else (if parts[0] == "" then [] else [parts[0]]) + Words(parts[1..])
  }

  /** Words keep their order: the words of a concatenation are the words of the first
      half followed by the words of the second. */
  lemma {:induction false} WordsAppend(a: seq<string>, b: seq<string>)
    ensures Words(a + b) == Words(a) + Words(b)
    decreases |a|
  {
    if a == [] {
      assert a + b == b;
    } else {
      assert (a + b)[0] == a[0] && (a + b)[1..] == a[1..] + b;
      WordsAppend(a[1..], b);
    }
  }

  /** The first word is the first non-empty part. */
  lemma {:induction false} WordsFirst(parts: seq<string>, i: nat)
    requires i < |parts| && parts[i] != "" && forall j :: 0 <= j < i ==> parts[j] == ""
    ensures |Words(parts)| > 0 && Words(parts)[0] == parts[i]
    decreases i
  {
    if i > 0 {
      assert parts[0] == "";
      forall j | 0 <= j < i - 1 ensures parts[1..][j] == "" {
        assert parts[1..][j] == parts[j + 1];
      }
      WordsFirst(parts[1..], i - 1);
    }
  }

  /** `formatMechanicName` with the abbreviation taken from the first two words,
      so that runs of spaces do not leave an empty second part. */
  function FormatMechanicName(name: string): (r: string)
    ensures IsPlaceholder(name) ==> r == name
    ensures |Words(Split(name, ' '))| <= 1 ==> r == name
    ensures var w := Words(Split(name, ' '));
      !IsPlaceholder(name) && |w| > 1 ==> r == w[0] + " " + [w[1][0]] + "."
    ensures forall c :: c in r ==> c in name || c == '.'
  {
    var w := Words(Split(name, ' '));
    if IsPlaceholder(name) || |w| <= 1 then name
    else
      SplitChars(name, ' ');
      assert w[0] in Split(name, ' ') && w[1] in Split(name, ' ') && w[1][0] in w[1];
      w[0] + " " + [w[1][0]] + "."
  }

  /** Where the second part is a real word, the corrected rule gives what the written
      one gives. */
  lemma FormatAgreesOnWords(name: string)
    requires var parts := Split(name, ' '); |parts| > 1 && parts[0] != "" && parts[1] != ""
    ensures FormatMechanicName(name) == FormatMechanicNameAsWritten(name)
  {
    var parts := Split(name, ' ');
    assert parts[1..][0] == parts[1] && parts[1..][1..] == parts[2..];
    assert Words(parts[1..]) == [parts[1]] + Words(parts[2..]);
    var w := Words(parts);
    assert w == [parts[0]] + ([parts[1]] + Words(parts[2..]));
    SplitChars(name, ' ');
  }

  lemma SplitFullName()
    ensures Split("Marcos Silva", ' ') == ["Marcos", "Silva"]
  {
    var parts := ["Marcos", "Silva"];
    assert parts[1..] == ["Silva"];
    assert Join(parts, ' ') == "Marcos" + " " + "Silva";
    assert "Marcos" + " " + "Silva" == "Marcos Silva";
    assert ' ' !in parts[0] && ' ' !in parts[1];
    SplitJoin(parts, ' ');
  }

  /** A name that splits into two real parts is abbreviated from those parts. */
  lemma AbbreviatesTwoParts(name: string, first: string, second: string)
    requires !IsPlaceholder(name) && Split(name, ' ') == [first, second] && second != ""
    ensures FormatMechanicNameAsWritten(name) == first + " " + [second[0]] + "."
  {
  }

  lemma AbbreviatedAsWritten()
    ensures FormatMechanicNameAsWritten("Marcos Silva") == "Marcos S."
  {
    SplitFullName();
    assert !IsPlaceholder("Marcos Silva");
    AbbreviatesTwoParts("Marcos Silva", "Marcos", "Silva");
    assert "Marcos" + " " + ['S'] + "." == "Marcos S.";
  }

  lemma AbbreviatedExample()
    ensures FormatMechanicNameAsWritten("Marcos Silva") == "Marcos S."
    ensures FormatMechanicName("Marcos Silva") == "Marcos S."
  {
    AbbreviatedAsWritten();
    SplitFullName();
    FormatAgreesOnWords("Marcos Silva");
  }

  // ---------------------------------------------------------------------------
  // The row
  // ---------------------------------------------------------------------------

  const OverdueMarker := "ATRASADO"

  datatype RowView = RowView(
    tone: Tone,
    title: string,
    plate: string,
    client: string,
    pulseDot: bool,          // the pinging dot of a car in service
    crossMark: bool,
    checkMark: bool,
    carIcon: bool,           // the driving car of a test drive
    stageText: string,
    compactStage: bool,      // the smaller font for a long stage label
    deliveryText: string,
    compactDelivery: bool,   // the smaller font for an overdue delivery text
    mechanic: string)

  function View(v: Vehicle): (r: RowView)
    ensures r.tone == ComponentTone(Classify(v.stage))
    ensures r.crossMark <==> Classify(v.stage) == Rejected
    ensures r.checkMark <==> Contains(Lower(v.stage), Aprovado) && Classify(v.stage) != Rejected
    ensures r.carIcon <==> Contains(Lower(v.stage), Teste)
    ensures r.pulseDot <==> Contains(Lower(v.stage), Servico)
    ensures r.pulseDot ==> Classify(v.stage) in {Rejected, Warranty, AwaitingEvaluation, PendingDecision, InService}
    ensures r.stageText == RejectedLabel <==> r.crossMark
    ensures !r.crossMark ==> r.stageText == v.stage
    ensures |r.stageText| > 15 ==> r.compactStage
    ensures r.compactStage ==> |r.stageText| > 7
    ensures r.deliveryText == v.deliveryDate
    ensures r.compactDelivery <==> Contains(v.deliveryDate, OverdueMarker)
    ensures r.mechanic == FormatMechanicNameAsWritten(v.mechanic)
    ensures r.title == ModelTitle(v.model) && IsTrimmed(r.title)
    ensures r.plate == v.plate && r.client == v.client
  {
    var f := Flags(v.stage);
    var shown := DisplayStage(v.stage);
    RowView(
      GetStageColors(v.stage),
      ModelTitle(v.model),
      v.plate,
      v.client,
      f.inService,
      f.rejected,
      f.mentionsApproved && !f.rejected,
      f.inTest,
      shown,
      Utf16Length(shown) > 15,
      v.deliveryDate,
      Contains(v.deliveryDate, OverdueMarker),
      FormatMechanicNameAsWritten(v.mechanic))
  }

  /** Both components agree on every stage decision: the cross, the check mark, the
      car, the dot and the label. */
  lemma RowsAgreeOnStage(v: Vehicle, today: int)
    ensures var a := RootRow.View(v, today); var b := View(v);
      a.crossMark == b.crossMark && a.checkMark == b.checkMark && a.carIcon == b.carIcon &&
      a.pulseDot == b.pulseDot && a.stageText == b.stageText && a.title == b.title
  {
  }

  /** The rejected overlay wins here too, though the label contains 'aprovado'. */
  lemma RejectedRow(v: Vehicle)
    requires IsRejectedText(Lower(v.stage))
    ensures Contains(Lower(v.stage), Aprovado)
    ensures var r := View(v); r.tone == PurpleSoft && r.crossMark && !r.checkMark && r.stageText == RejectedLabel
  {
    RejectionHidesApproval(v.stage);
  }
}
