/**
 * The stage classifier shared by both row components: a free-text stage label
 * is lower-cased and tested against an ordered list of keyword rules; the
 * first rule that holds decides the category. The same lower-cased label also
 * gives the display flags and the display label.
 */
module StageRules {
  import opened Text

  // The keywords, lower-case, as the row components spell them.
  const NaoAprovado := "não " + Aprovado
  const NaoAprovadoPlain := "nao " + Aprovado
  const Garantia := "garantia"
  const Avaliacao := "avaliação"
  const Aguardando := "aguardando"
  const Aprovacao := "aprovação"
  const Servico := "serviço"
  const Aprovado := "aprovado"
  const Pecas := "peças"
  const Teste := "teste"
  const Finalizado := "finalizado"

  /** The label shown for every rejected stage, whatever its spelling. */
  const RejectedLabel := "Não Aprovado"

  datatype Category =
    | Rejected            // 'não aprovado' / 'nao aprovado'
    | Warranty            // 'garantia'
    | AwaitingEvaluation  // 'avaliação' and 'aguardando' (the dim variant)
    | PendingDecision     // 'avaliação' or 'aprovação'
    | InService           // 'serviço'
    | Approved            // 'aprovado'
    | AwaitingParts       // 'peças'
    | InTest              // 'teste'
    | Finalized           // 'finalizado'
    | Unclassified        // no keyword

  /** A rule's condition on the lower-cased label. */
  datatype Test =
    | Has(word: string)
    | HasBoth(first: string, second: string)
    | HasEither(first: string, second: string)

  predicate Holds(t: Test, s: string) {
    match t
    case Has(w) => Contains(s, w)
    case HasBoth(a, b) => Contains(s, a) && Contains(s, b)
    case HasEither(a, b) => Contains(s, a) || Contains(s, b)
  }

  /** The rules in priority order. */
  const Rules: seq<(Test, Category)> := [
    (HasEither(NaoAprovado, NaoAprovadoPlain), Rejected),
    (Has(Garantia), Warranty),
    (HasBoth(Avaliacao, Aguardando), AwaitingEvaluation),
    (HasEither(Avaliacao, Aprovacao), PendingDecision),
    (Has(Servico), InService),
    (Has(Aprovado), Approved),
    (Has(Pecas), AwaitingParts),
    (Has(Teste), InTest),
    (Has(Finalizado), Finalized)
  ]

  /** The category of the first rule that holds of `s`, or Unclassified. */
  function FirstMatch(rules: seq<(Test, Category)>, s: string): Category
    decreases |rules|
  {
    if rules == [] then Unclassified
    else if Holds(rules[0].0, s) then rules[0].1
    else FirstMatch(rules[1..], s)
  }

  /** Each rule's category is its own and none of them is Unclassified. */
  predicate DistinctCategories(rules: seq<(Test, Category)>) {
    && (forall a :: 0 <= a < |rules| ==> rules[a].1 != Unclassified)
    && (forall a, b :: 0 <= a < b < |rules| ==> rules[a].1 != rules[b].1)
  }

  /** No rule before `i` holds. */
  predicate NoneBefore(rules: seq<(Test, Category)>, s: string, i: int)
    requires i <= |rules|
  {
    forall j :: 0 <= j < i ==> !Holds(rules[j].0, s)
  }

  /** The category of a lower-cased label: the first rule that holds of it. */
  function CategoryOf(s: string): Category {
    FirstMatch(Rules, s)
  }

  /** `getStageColors`' decision: the category of the lower-cased stage label. It is
      the default exactly when no rule holds, and otherwise the category of a rule
      that holds with no earlier rule holding. */
  function Classify(stage: string): (c: Category)
    ensures c == Unclassified <==> NoneBefore(Rules, Lower(stage), |Rules|)
    ensures c != Unclassified ==>
      exists i :: 0 <= i < |Rules| && c == Rules[i].1 && Holds(Rules[i].0, Lower(stage)) && NoneBefore(Rules, Lower(stage), i)
  {
    RulesDistinct();
    FirstMatchNone(Rules, Lower(stage));
    FirstMatchDecided(Rules, Lower(stage));
    CategoryOf(Lower(stage))
  }

  // ---------------------------------------------------------------------------
  // First match wins
  // ---------------------------------------------------------------------------

  /** The first rule that holds decides. */
  lemma {:induction false} FirstMatchAt(rules: seq<(Test, Category)>, s: string, i: nat)
    requires i < |rules| && Holds(rules[i].0, s) && NoneBefore(rules, s, i)
    ensures FirstMatch(rules, s) == rules[i].1
    decreases i
  {
    if i > 0 {
      assert Holds(rules[1..][i - 1].0, s);
      FirstMatchAt(rules[1..], s, i - 1);
    }
  }

  /** When no rule holds the result is Unclassified, and only then (for a table without it). */
  lemma {:induction false} FirstMatchNone(rules: seq<(Test, Category)>, s: string)
    requires DistinctCategories(rules)
    ensures FirstMatch(rules, s) == Unclassified <==> NoneBefore(rules, s, |rules|)
    decreases |rules|
  {
    if rules != [] {
      FirstMatchNone(rules[1..], s);
      if !Holds(rules[0].0, s) {
        assert NoneBefore(rules, s, |rules|) <==> NoneBefore(rules[1..], s, |rules| - 1) by {
          if NoneBefore(rules[1..], s, |rules| - 1) {
            forall j | 0 <= j < |rules| ensures !Holds(rules[j].0, s) {
              if j > 0 { assert rules[j] == rules[1..][j - 1]; }
            }
          }
        }
      }
    }
  }

  /** The result is Unclassified or the category of some rule of the table. */
  lemma {:induction false} FirstMatchInTable(rules: seq<(Test, Category)>, s: string)
    ensures FirstMatch(rules, s) == Unclassified || exists a :: 0 <= a < |rules| && FirstMatch(rules, s) == rules[a].1
    decreases |rules|
  {
    if rules != [] && !Holds(rules[0].0, s) {
      FirstMatchInTable(rules[1..], s);
      if FirstMatch(rules[1..], s) != Unclassified {
        var a :| 0 <= a < |rules| - 1 && FirstMatch(rules[1..], s) == rules[1..][a].1;
        assert FirstMatch(rules, s) == rules[a + 1].1;
      }
    }
  }

  /** With distinct categories, rule `i`'s category is the result exactly when rule `i`
      holds and no earlier rule does. */
  lemma {:induction false} FirstMatchIff(rules: seq<(Test, Category)>, s: string, i: nat)
    requires i < |rules| && DistinctCategories(rules)
    ensures FirstMatch(rules, s) == rules[i].1 <==> Holds(rules[i].0, s) && NoneBefore(rules, s, i)
    decreases |rules|
  {
    if Holds(rules[i].0, s) && NoneBefore(rules, s, i) {
      FirstMatchAt(rules, s, i);
    }
    if FirstMatch(rules, s) == rules[i].1 {
      if Holds(rules[0].0, s) {
        assert i == 0;
      } else {
        var tail := rules[1..];
        assert DistinctCategories(tail);
        FirstMatchInTable(tail, s);
        var a :| 0 <= a < |tail| && FirstMatch(tail, s) == tail[a].1;
        assert i == a + 1;
        FirstMatchIff(tail, s, a);
        forall j | 0 <= j < i ensures !Holds(rules[j].0, s) {
          if j > 0 { assert rules[j] == tail[j - 1]; }
        }
      }
    }
  }

  /** A result other than the default comes from a rule that holds, with no earlier
      rule holding. */
  lemma FirstMatchDecided(rules: seq<(Test, Category)>, s: string)
    requires DistinctCategories(rules)
    ensures FirstMatch(rules, s) != Unclassified ==>
      exists i :: 0 <= i < |rules| && FirstMatch(rules, s) == rules[i].1 && Holds(rules[i].0, s) && NoneBefore(rules, s, i)
  {
    FirstMatchInTable(rules, s);
    if FirstMatch(rules, s) != Unclassified {
      var a :| 0 <= a < |rules| && FirstMatch(rules, s) == rules[a].1;
      FirstMatchIff(rules, s, a);
    }
  }

  lemma RulesDistinct()
    ensures DistinctCategories(Rules)
  {
  }

  // ---------------------------------------------------------------------------
  // The rule table read as the components' chain of tests
  // ---------------------------------------------------------------------------

  /** 'não aprovado' or 'nao aprovado' occurs in the lower-cased label; such a label
      also contains 'aprovado'. */
  predicate IsRejectedText(s: string)
    ensures IsRejectedText(s) ==> Contains(s, Aprovado)
  {
    RejectedMentionsApproved(s);
    Contains(s, NaoAprovado) || Contains(s, NaoAprovadoPlain)
  }

  /** The table gives what the components' chain of early returns gives. */
  lemma CategoryChain(s: string)
    ensures CategoryOf(s) ==
      if IsRejectedText(s) then Rejected
      else if Contains(s, Garantia) then Warranty
      else if Contains(s, Avaliacao) && Contains(s, Aguardando) then AwaitingEvaluation
      else if Contains(s, Avaliacao) || Contains(s, Aprovacao) then PendingDecision
      else if Contains(s, Servico) then InService
      else if Contains(s, Aprovado) then Approved
      else if Contains(s, Pecas) then AwaitingParts
      else if Contains(s, Teste) then InTest
      else if Contains(s, Finalizado) then Finalized
      else Unclassified
  {
    if IsRejectedText(s) { FirstMatchAt(Rules, s, 0); }
    else if Contains(s, Garantia) { FirstMatchAt(Rules, s, 1); }
    else if Contains(s, Avaliacao) && Contains(s, Aguardando) { FirstMatchAt(Rules, s, 2); }
    else if Contains(s, Avaliacao) || Contains(s, Aprovacao) { FirstMatchAt(Rules, s, 3); }
    else if Contains(s, Servico) { FirstMatchAt(Rules, s, 4); }
    else if Contains(s, Aprovado) { FirstMatchAt(Rules, s, 5); }
    else if Contains(s, Pecas) { FirstMatchAt(Rules, s, 6); }
    else if Contains(s, Teste) { FirstMatchAt(Rules, s, 7); }
    else if Contains(s, Finalizado) { FirstMatchAt(Rules, s, 8); }
    else { RulesDistinct(); FirstMatchNone(Rules, s); }
  }

  lemma ClassifyChain(stage: string)
    ensures var s := Lower(stage);
      Classify(stage) ==
        if IsRejectedText(s) then Rejected
        else if Contains(s, Garantia) then Warranty
        else if Contains(s, Avaliacao) && Contains(s, Aguardando) then AwaitingEvaluation
        else if Contains(s, Avaliacao) || Contains(s, Aprovacao) then PendingDecision
        else if Contains(s, Servico) then InService
        else if Contains(s, Aprovado) then Approved
        else if Contains(s, Pecas) then AwaitingParts
        else if Contains(s, Teste) then InTest
        else if Contains(s, Finalizado) then Finalized
        else Unclassified
  {
    CategoryChain(Lower(stage));
  }

  /** Rule `i` decides exactly when it holds of the lower-cased label and no earlier rule does. */
  lemma ClassifyIsFirstMatch(stage: string, i: nat)
    requires i < |Rules|
    ensures Classify(stage) == Rules[i].1 <==> Holds(Rules[i].0, Lower(stage)) && NoneBefore(Rules, Lower(stage), i)
  {
    RulesDistinct();
    FirstMatchIff(Rules, Lower(stage), i);
  }

  /** Lower-casing the label first changes nothing: the classifier is case-insensitive. */
  lemma ClassifyLowered(stage: string)
    ensures Classify(Lower(stage)) == Classify(stage)
    ensures Flags(Lower(stage)) == Flags(stage)
  {
    LowerIdempotent(stage);
  }

  // ---------------------------------------------------------------------------
  // Category properties
  // ---------------------------------------------------------------------------

  /** 'não aprovado' ends with 'aprovado', so every rejected label mentions 'aprovado'. */
  lemma RejectedMentionsApproved(s: string)
    ensures Contains(s, NaoAprovado) || Contains(s, NaoAprovadoPlain) ==> Contains(s, Aprovado)
  {
    assert MatchesAt(NaoAprovado, Aprovado, 4) by { assert NaoAprovado[4..] == Aprovado; }
    assert MatchesAt(NaoAprovadoPlain, Aprovado, 4) by { assert NaoAprovadoPlain[4..] == Aprovado; }
    if Contains(s, NaoAprovado) {
      ContainsTransitive(s, NaoAprovado, Aprovado);
    } else if Contains(s, NaoAprovadoPlain) {
      ContainsTransitive(s, NaoAprovadoPlain, Aprovado);
    }
  }

  /** A rejected label mentions 'aprovado', yet it is classified Rejected and never
      shows the approved check mark. */
  lemma RejectionHidesApproval(stage: string)
    requires IsRejectedText(Lower(stage))
    ensures Contains(Lower(stage), Aprovado)
    ensures Classify(stage) == Rejected
    ensures !ShowsApprovedCheck(stage)
  {
    ClassifyChain(stage);
  }

  /** A label with both 'avaliação' and 'aguardando' never gets the yellow pending
      category: it is dim AwaitingEvaluation unless an earlier rule took it. */
  lemma AwaitingEvaluationNotPending(stage: string)
    requires Contains(Lower(stage), Avaliacao) && Contains(Lower(stage), Aguardando)
    ensures Classify(stage) != PendingDecision
    ensures Classify(stage) in {Rejected, Warranty, AwaitingEvaluation}
    ensures !IsRejectedText(Lower(stage)) && !Contains(Lower(stage), Garantia) ==> Classify(stage) == AwaitingEvaluation
  {
    ClassifyChain(stage);
  }

  /** 'serviço' is tested before 'aprovado': a label with 'serviço' is never in the
      Approved category, and one with both and no earlier keyword is InService. */
  lemma ServiceBeforeApproved(stage: string)
    requires Contains(Lower(stage), Servico)
    ensures Classify(stage) != Approved
    ensures Classify(stage) in {Rejected, Warranty, AwaitingEvaluation, PendingDecision, InService}
    ensures (!IsRejectedText(Lower(stage)) && !Contains(Lower(stage), Garantia) &&
             !Contains(Lower(stage), Avaliacao) && !Contains(Lower(stage), Aprovacao)) ==>
      Classify(stage) == InService
  {
    ClassifyChain(stage);
  }

  // ---------------------------------------------------------------------------
  // Flags and display label
  // ---------------------------------------------------------------------------

  /** The flags both row components compute from the lower-cased label. */
  datatype StageFlags = StageFlags(
    rejected: bool,          // isNaoAprovado: 'não aprovado' or 'nao aprovado' occurs
    inTest: bool,            // isFaseDeTeste: 'teste' occurs
    mentionsApproved: bool,  // isAprovado: 'aprovado' occurs, also inside 'não aprovado'
    inService: bool,         // isEmServico: 'serviço' occurs
    awaiting: bool)          // isAguardando: the label starts with 'aguardando' (no trim)

  function Flags(stage: string): (f: StageFlags)
    ensures f.rejected <==> Classify(stage) == Rejected
    ensures f.rejected ==> f.mentionsApproved
    ensures f.awaiting ==> Contains(Lower(stage), Aguardando)
    ensures f.inTest ==> Classify(stage) !in {Finalized, Unclassified}
    ensures f.inService ==> Classify(stage) in {Rejected, Warranty, AwaitingEvaluation, PendingDecision, InService}
  {
    var s := Lower(stage);
    ClassifyChain(stage);
    PrefixContains(s, Aguardando);
    StageFlags(IsRejectedText(s), Contains(s, Teste), Contains(s, Aprovado), Contains(s, Servico), StartsWith(s, Aguardando))
  }

  /** The check mark: 'aprovado' occurs and the label is not a rejection. */
  predicate ShowsApprovedCheck(stage: string)
    ensures ShowsApprovedCheck(stage) <==> Contains(Lower(stage), Aprovado) && Classify(stage) != Rejected
  {
    var f := Flags(stage);
    f.mentionsApproved && !f.rejected
  }

  /** A label that shows the check mark is classified no later than Approved. */
  lemma ApprovedCheckCategory(stage: string)
    requires ShowsApprovedCheck(stage)
    ensures Contains(Lower(stage), Aprovado)
    ensures Classify(stage) in {Warranty, AwaitingEvaluation, PendingDecision, InService, Approved}
  {
    ClassifyChain(stage);
  }

  lemma RejectedLabelIsRejected()
    ensures Lower(RejectedLabel) == NaoAprovado
    ensures IsRejectedText(Lower(RejectedLabel))
  {
    assert MatchesAt(NaoAprovado, NaoAprovado, 0);
  }

  /** `displayStage`: the canonical rejected label for a rejected stage, otherwise the
      stage exactly as given. */
  function DisplayStage(stage: string): (r: string)
    ensures r == RejectedLabel <==> Flags(stage).rejected
    ensures !Flags(stage).rejected ==> r == stage
    ensures Classify(r) == Classify(stage) && Flags(r).rejected == Flags(stage).rejected
  {
    RejectedLabelIsRejected();
    ClassifyChain(RejectedLabel);
    if Flags(stage).rejected then RejectedLabel else stage
  }
}
