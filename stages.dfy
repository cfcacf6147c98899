/**
 * The lower-cased forms of the board's twelve named stages and the category
 * each of them receives. A keyword is shown absent either by a character of it
 * that the label lacks (`MissingChar`), by length (`TooLong`), or, when every
 * character occurs, by running the `indexOf` search over the label.
 */
module StageTexts {
  import opened Text
  import opened StageRules

  lemma AguardandoAvaliacaoKeywords(s: string)
    requires s == "aguardando avaliação"
    ensures !Contains(s, NaoAprovado)
    ensures !Contains(s, NaoAprovadoPlain)
    ensures !Contains(s, Garantia)
    ensures Contains(s, Avaliacao)
    ensures Contains(s, Aguardando)
  {
    MissingChar(s, NaoAprovado, 'p');
    MissingChar(s, NaoAprovadoPlain, 'p');
    MissingChar(s, Garantia, 't');
    assert MatchesAt(s, Avaliacao, 11) && MatchesAt(s, Aguardando, 0);
  }

  lemma AguardandoAvaliacaoText(s: string)
    requires s == "aguardando avaliação"
    ensures CategoryOf(s) == AwaitingEvaluation
  {
    AguardandoAvaliacaoKeywords(s);
    CategoryChain(s);
  }

  lemma EmAvaliacaoKeywords(s: string)
    requires s == "em avaliação"
    ensures !Contains(s, NaoAprovado)
    ensures !Contains(s, NaoAprovadoPlain)
    ensures !Contains(s, Garantia)
    ensures !Contains(s, Aguardando)
    ensures Contains(s, Avaliacao)
  {
    MissingChar(s, NaoAprovado, 'p');
    MissingChar(s, NaoAprovadoPlain, 'p');
    MissingChar(s, Garantia, 'g');
    MissingChar(s, Aguardando, 'g');
    assert MatchesAt(s, Avaliacao, 3);
  }

  lemma EmAvaliacaoText(s: string)
    requires s == "em avaliação"
    ensures CategoryOf(s) == PendingDecision
  {
    EmAvaliacaoKeywords(s);
    CategoryChain(s);
  }

  lemma AvaliacaoTecnicaKeywords(s: string)
    requires s == "avaliação técnica"
    ensures !Contains(s, NaoAprovado)
    ensures !Contains(s, NaoAprovadoPlain)
    ensures !Contains(s, Garantia)
    ensures !Contains(s, Aguardando)
    ensures Contains(s, Avaliacao)
  {
    MissingChar(s, NaoAprovado, 'p');
    MissingChar(s, NaoAprovadoPlain, 'p');
    MissingChar(s, Garantia, 'g');
    MissingChar(s, Aguardando, 'g');
    assert MatchesAt(s, Avaliacao, 0);
  }

  lemma AvaliacaoTecnicaText(s: string)
    requires s == "avaliação técnica"
    ensures CategoryOf(s) == PendingDecision
  {
    AvaliacaoTecnicaKeywords(s);
    CategoryChain(s);
  }

  /** Every character of 'não aprovado' occurs in 'aguardando aprovação', so the
      search has to look at every position. */
  lemma AguardandoAprovacaoNotRejected(s: string)
    requires s == "aguardando aprovação"
    ensures !Contains(s, NaoAprovado)
  {
    assert IndexFrom(s, NaoAprovado, 8).None?;
    assert IndexFrom(s, NaoAprovado, 6).None?;
    assert IndexFrom(s, NaoAprovado, 4).None?;
    assert IndexFrom(s, NaoAprovado, 2).None?;
    assert IndexFrom(s, NaoAprovado, 0).None?;
  }

  lemma AguardandoAprovacaoNotRejectedPlain(s: string)
    requires s == "aguardando aprovação"
    ensures !Contains(s, NaoAprovadoPlain)
  {
    assert IndexFrom(s, NaoAprovadoPlain, 8).None?;
    var k := "nao aprovado";
    assert IndexFrom(s, k, 6).None?;
    assert IndexFrom(s, k, 4).None?;
    assert IndexFrom(s, k, 2).None?;
    assert IndexFrom(s, k, 0).None?;
    assert k == NaoAprovadoPlain;
  }

  lemma AguardandoAprovacaoKeywords(s: string)
    requires s == "aguardando aprovação"
    ensures !Contains(s, Garantia)
    ensures !Contains(s, Avaliacao)
    ensures !Contains(s, NaoAprovado)
    ensures !Contains(s, NaoAprovadoPlain)
    ensures Contains(s, Aprovacao)
  {
    AguardandoAprovacaoNotRejected(s);
    AguardandoAprovacaoNotRejectedPlain(s);
    MissingChar(s, Garantia, 't');
    MissingChar(s, Avaliacao, 'l');
    assert MatchesAt(s, Aprovacao, 11);
  }

  lemma AguardandoAprovacaoText(s: string)
    requires s == "aguardando aprovação"
    ensures CategoryOf(s) == PendingDecision
  {
    AguardandoAprovacaoKeywords(s);
    CategoryChain(s);
  }

  lemma AprovadoKeywords(s: string)
    requires s == "aprovado"
    ensures !Contains(s, NaoAprovado)
    ensures !Contains(s, NaoAprovadoPlain)
    ensures !Contains(s, Garantia)
    ensures !Contains(s, Avaliacao)
    ensures !Contains(s, Aprovacao)
    ensures !Contains(s, Servico)
    ensures Contains(s, Aprovado)
  {
    TooLong(s, NaoAprovado);
    TooLong(s, NaoAprovadoPlain);
    MissingChar(s, Garantia, 'g');
    MissingChar(s, Avaliacao, 'l');
    MissingChar(s, Aprovacao, 'ç');
    MissingChar(s, Servico, 's');
    assert MatchesAt(s, Aprovado, 0);
  }

  lemma AprovadoText(s: string)
    requires s == "aprovado"
    ensures CategoryOf(s) == Approved
  {
    AprovadoKeywords(s);
    CategoryChain(s);
  }

  lemma OrcamentoAprovadoNotRejectedPlain(s: string)
    requires s == "orçamento aprovado"
    ensures !Contains(s, NaoAprovadoPlain)
  {
    var k := "nao aprovado";
    assert IndexFrom(s, k, 6).None?;
    assert IndexFrom(s, k, 4).None?;
    assert IndexFrom(s, k, 2).None?;
    assert IndexFrom(s, k, 0).None?;
    assert k == NaoAprovadoPlain;
  }

  lemma OrcamentoAprovadoMissing(s: string)
    requires s == "orçamento aprovado"
    ensures !Contains(s, NaoAprovado)
    ensures !Contains(s, Garantia)
    ensures !Contains(s, Avaliacao)
    ensures !Contains(s, Aprovacao)
    ensures !Contains(s, Servico)
  {
    MissingChar(s, NaoAprovado, 'ã');
    MissingChar(s, Garantia, 'g');
    MissingChar(s, Avaliacao, 'l');
    MissingChar(s, Aprovacao, 'ã');
    MissingChar(s, Servico, 's');
  }

  lemma OrcamentoAprovadoKeywords(s: string)
    requires s == "orçamento aprovado"
    ensures !Contains(s, NaoAprovado)
    ensures !Contains(s, Garantia)
    ensures !Contains(s, Avaliacao)
    ensures !Contains(s, Aprovacao)
    ensures !Contains(s, Servico)
    ensures !Contains(s, NaoAprovadoPlain)
    ensures Contains(s, Aprovado)
  {
    OrcamentoAprovadoMissing(s);
    OrcamentoAprovadoNotRejectedPlain(s);
    assert MatchesAt(s, Aprovado, 10);
  }

  lemma OrcamentoAprovadoText(s: string)
    requires s == "orçamento aprovado"
    ensures CategoryOf(s) == Approved
  {
    OrcamentoAprovadoKeywords(s);
    CategoryChain(s);
  }

  lemma EmServicoKeywords(s: string)
    requires s == "em serviço"
    ensures !Contains(s, NaoAprovado)
    ensures !Contains(s, NaoAprovadoPlain)
    ensures !Contains(s, Garantia)
    ensures !Contains(s, Avaliacao)
    ensures !Contains(s, Aprovacao)
    ensures Contains(s, Servico)
  {
    MissingChar(s, NaoAprovado, 'p');
    MissingChar(s, NaoAprovadoPlain, 'p');
    MissingChar(s, Garantia, 'g');
    MissingChar(s, Avaliacao, 'l');
    MissingChar(s, Aprovacao, 'p');
    assert MatchesAt(s, Servico, 3);
  }

  lemma EmServicoText(s: string)
    requires s == "em serviço"
    ensures CategoryOf(s) == InService
  {
    EmServicoKeywords(s);
    CategoryChain(s);
  }

  lemma AguardandoPecasKeywords(s: string)
    requires s == "aguardando peças"
    ensures !Contains(s, NaoAprovado)
    ensures !Contains(s, NaoAprovadoPlain)
    ensures !Contains(s, Garantia)
    ensures !Contains(s, Avaliacao)
    ensures !Contains(s, Aprovacao)
    ensures !Contains(s, Servico)
    ensures !Contains(s, Aprovado)
    ensures Contains(s, Pecas)
  {
    MissingChar(s, NaoAprovado, 'ã');
    MissingChar(s, NaoAprovadoPlain, 'v');
    MissingChar(s, Garantia, 't');
    MissingChar(s, Avaliacao, 'v');
    MissingChar(s, Aprovacao, 'v');
    MissingChar(s, Servico, 'v');
    MissingChar(s, Aprovado, 'v');
    assert MatchesAt(s, Pecas, 11);
  }

  lemma AguardandoPecasText(s: string)
    requires s == "aguardando peças"
    ensures CategoryOf(s) == AwaitingParts
  {
    AguardandoPecasKeywords(s);
    CategoryChain(s);
  }

  lemma FaseDeTesteKeywords(s: string)
    requires s == "fase de teste"
    ensures !Contains(s, NaoAprovado)
    ensures !Contains(s, NaoAprovadoPlain)
    ensures !Contains(s, Garantia)
    ensures !Contains(s, Avaliacao)
    ensures !Contains(s, Aprovacao)
    ensures !Contains(s, Servico)
    ensures !Contains(s, Aprovado)
    ensures !Contains(s, Pecas)
    ensures Contains(s, Teste)
  {
    MissingChar(s, NaoAprovado, 'p');
    MissingChar(s, NaoAprovadoPlain, 'p');
    MissingChar(s, Garantia, 'g');
    MissingChar(s, Avaliacao, 'v');
    MissingChar(s, Aprovacao, 'p');
    MissingChar(s, Servico, 'v');
    MissingChar(s, Aprovado, 'p');
    MissingChar(s, Pecas, 'p');
    assert MatchesAt(s, Teste, 8);
  }

  lemma FaseDeTesteText(s: string)
    requires s == "fase de teste"
    ensures CategoryOf(s) == InTest
  {
    FaseDeTesteKeywords(s);
    CategoryChain(s);
  }

  lemma FinalizadoKeywords(s: string)
    requires s == "finalizado"
    ensures !Contains(s, NaoAprovado)
    ensures !Contains(s, NaoAprovadoPlain)
    ensures !Contains(s, Garantia)
    ensures !Contains(s, Avaliacao)
    ensures !Contains(s, Aprovacao)
    ensures !Contains(s, Servico)
    ensures !Contains(s, Aprovado)
    ensures !Contains(s, Pecas)
    ensures !Contains(s, Teste)
    ensures Contains(s, Finalizado)
  {
    TooLong(s, NaoAprovado);
    TooLong(s, NaoAprovadoPlain);
    MissingChar(s, Garantia, 'g');
    MissingChar(s, Avaliacao, 'v');
    MissingChar(s, Aprovacao, 'p');
    MissingChar(s, Servico, 's');
    MissingChar(s, Aprovado, 'p');
    MissingChar(s, Pecas, 'p');
    MissingChar(s, Teste, 't');
    assert MatchesAt(s, Finalizado, 0);
  }

  lemma FinalizadoText(s: string)
    requires s == "finalizado"
    ensures CategoryOf(s) == Finalized
  {
    FinalizadoKeywords(s);
    CategoryChain(s);
  }

  lemma GarantiaKeywords(s: string)
    requires s == "garantia"
    ensures !Contains(s, NaoAprovado)
    ensures !Contains(s, NaoAprovadoPlain)
    ensures Contains(s, Garantia)
  {
    TooLong(s, NaoAprovado);
    TooLong(s, NaoAprovadoPlain);
    assert MatchesAt(s, Garantia, 0);
  }

  lemma GarantiaText(s: string)
    requires s == "garantia"
    ensures CategoryOf(s) == Warranty
  {
    GarantiaKeywords(s);
    CategoryChain(s);
  }

  lemma OrcamentoNaoAprovadoKeywords(s: string)
    requires s == "orçamento não aprovado"
    ensures Contains(s, NaoAprovado)
    ensures Contains(s, Aprovado)
  {
    assert MatchesAt(s, NaoAprovado, 10) && MatchesAt(s, Aprovado, 14);
  }

  lemma OrcamentoNaoAprovadoText(s: string)
    requires s == "orçamento não aprovado"
    ensures CategoryOf(s) == Rejected && IsRejectedText(s) && Contains(s, Aprovado)
  {
    OrcamentoNaoAprovadoKeywords(s);
    CategoryChain(s);
  }
}

/** The twelve named stages of the board and the category each of them receives. */
module Stages {
  import opened Text
  import opened StageRules
  import opened StageTexts

  const AguardandoAvaliacao := "Aguardando Avaliação"
  const EmAvaliacao := "Em Avaliação"
  const AvaliacaoTecnica := "Avaliação Técnica"
  const AguardandoAprovacao := "Aguardando Aprovação"
  const AprovadoStage := "Aprovado"
  const OrcamentoAprovado := "Orçamento Aprovado"
  const EmServico := "Em Serviço"
  const AguardandoPecas := "Aguardando Peças"
  const FaseDeTeste := "Fase de Teste"
  const FinalizadoStage := "Finalizado"
  const GarantiaStage := "Garantia"
  const OrcamentoNaoAprovado := "Orçamento Não Aprovado"

  lemma AguardandoAvaliacaoClass()
    ensures Classify(AguardandoAvaliacao) == AwaitingEvaluation
  {
    AguardandoAvaliacaoText(Lower(AguardandoAvaliacao));
  }

  lemma EmAvaliacaoClass()
    ensures Classify(EmAvaliacao) == PendingDecision
  {
    EmAvaliacaoText(Lower(EmAvaliacao));
  }

  lemma AvaliacaoTecnicaClass()
    ensures Classify(AvaliacaoTecnica) == PendingDecision
  {
    AvaliacaoTecnicaText(Lower(AvaliacaoTecnica));
  }

  lemma AguardandoAprovacaoClass()
    ensures Classify(AguardandoAprovacao) == PendingDecision
  {
    AguardandoAprovacaoText(Lower(AguardandoAprovacao));
  }

  lemma AprovadoStageClass()
    ensures Classify(AprovadoStage) == Approved
  {
    AprovadoText(Lower(AprovadoStage));
  }

  lemma OrcamentoAprovadoClass()
    ensures Classify(OrcamentoAprovado) == Approved
  {
    OrcamentoAprovadoText(Lower(OrcamentoAprovado));
  }

  lemma EmServicoClass()
    ensures Classify(EmServico) == InService
  {
    EmServicoText(Lower(EmServico));
  }

  lemma AguardandoPecasClass()
    ensures Classify(AguardandoPecas) == AwaitingParts
  {
    AguardandoPecasText(Lower(AguardandoPecas));
  }

  lemma FaseDeTesteClass()
    ensures Classify(FaseDeTeste) == InTest
  {
    FaseDeTesteText(Lower(FaseDeTeste));
  }

  lemma FinalizadoStageClass()
    ensures Classify(FinalizadoStage) == Finalized
  {
    FinalizadoText(Lower(FinalizadoStage));
  }

  lemma GarantiaStageClass()
    ensures Classify(GarantiaStage) == Warranty
  {
    GarantiaText(Lower(GarantiaStage));
  }

  lemma OrcamentoNaoAprovadoClass()
    ensures Classify(OrcamentoNaoAprovado) == Rejected
  {
    OrcamentoNaoAprovadoText(Lower(OrcamentoNaoAprovado));
  }

  /** Each named stage lands in its own category. */
  lemma NamedStageCategories()
    ensures Classify(AguardandoAvaliacao) == AwaitingEvaluation
    ensures Classify(EmAvaliacao) == PendingDecision
    ensures Classify(AvaliacaoTecnica) == PendingDecision
    ensures Classify(AguardandoAprovacao) == PendingDecision
    ensures Classify(AprovadoStage) == Approved
    ensures Classify(OrcamentoAprovado) == Approved
    ensures Classify(EmServico) == InService
    ensures Classify(AguardandoPecas) == AwaitingParts
    ensures Classify(FaseDeTeste) == InTest
    ensures Classify(FinalizadoStage) == Finalized
    ensures Classify(GarantiaStage) == Warranty
    ensures Classify(OrcamentoNaoAprovado) == Rejected
  {
    AguardandoAvaliacaoClass();
    EmAvaliacaoClass();
    AvaliacaoTecnicaClass();
    AguardandoAprovacaoClass();
    AprovadoStageClass();
    OrcamentoAprovadoClass();
    EmServicoClass();
    AguardandoPecasClass();
    FaseDeTesteClass();
    FinalizadoStageClass();
    GarantiaStageClass();
    OrcamentoNaoAprovadoClass();
  }

  /** The headline case: "Orçamento Não Aprovado" contains 'aprovado', yet it is
      Rejected, is shown as "Não Aprovado" and never gets the check mark. */
  lemma OrcamentoNaoAprovadoIsRejected()
    ensures Contains(Lower(OrcamentoNaoAprovado), Aprovado)
    ensures Classify(OrcamentoNaoAprovado) == Rejected
    ensures Flags(OrcamentoNaoAprovado).rejected && Flags(OrcamentoNaoAprovado).mentionsApproved
    ensures !ShowsApprovedCheck(OrcamentoNaoAprovado)
    ensures DisplayStage(OrcamentoNaoAprovado) == RejectedLabel
  {
    OrcamentoNaoAprovadoText(Lower(OrcamentoNaoAprovado));
    RejectionHidesApproval(OrcamentoNaoAprovado);
  }
}
