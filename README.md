# Workshop yard dashboard: stage classifier, delivery status and Trello mapping

This project models the decision logic of a car-workshop yard dashboard ("Rei do
ABS • Gestão de Pátio"). One row is shown per vehicle. The logic has four parts:

- **Stage classifier.** A free-text stage label, in practice the name of a Trello
  list, is lower-cased. An ordered, first-match-wins chain of substring tests then
  picks a colour category: 'não aprovado'/'nao aprovado', 'garantia',
  'avaliação'∧'aguardando', 'avaliação'∨'aprovação', 'serviço', 'aprovado',
  'peças', 'teste', 'finalizado', and a default. The same label also gives the
  icon flags and the label shown (`StageRules`). Both row components use the same
  chain, each with its own palette (`Styles`, `RootRow`, `ComponentRow`).
- **Delivery status** of the top-level row: overdue ("ATRASADO"), due today
  ("HOJE"), or the pre-formatted delivery text (`Delivery`).
- **Small string rules:** removing the "Land Rover" brand from the model title
  (`Workshop`), and abbreviating the mechanic's name (`ComponentRow`).
- **Trello integration:** reading the configuration from the environment, the
  list-id → name table, mapping each card to a vehicle, and choosing between the
  demonstration, live and offline data sets (`Trello`).

JavaScript's string operations get their own definitions in `Text`:
`toLowerCase`, `includes`, `startsWith`, `trim`, `split`, `replace` and
`length`. Dates are local calendar day numbers, and today's day number is a
parameter. The HTTP requests are replaced by an abstract outcome value.

The clock icon's test (`isAguardando`) is a prefix test on the lower-cased label
without trimming, so a label with a leading space does not get the clock
(`RootRow.LeadingSpaceHidesClock`).

Files: `wrappers.dfy` (Option), `text.dfy`, `stage_rules.dfy`, `stages.dfy` (the
twelve named stages), `styles.dfy`, `delivery.dfy`, `workshop.dfy`,
`root_row.dfy`, `component_row.dfy`, `trello.dfy`.

## Model

| member | source | states |
|---|---|---|
| Text.Lower | VehicleRow.tsx:10 | `toLowerCase`: the same length, and each character lower-cased on its own |
| Text.LowerIdempotent | VehicleRow.tsx:31 | lower-casing twice is lower-casing once |
| Text.Contains | VehicleRow.tsx:12 | `includes`: some slice of the label equals the keyword; a keyword longer than the label never occurs, and the empty text always does |
| Text.StartsWith | VehicleRow.tsx:37 | `startsWith`: the keyword is the label's first characters, that is, it occurs at position 0 |
| Text.IndexOf | VehicleRow.tsx:12 | the first position where the keyword occurs, or none exactly when the keyword does not occur |
| Text.ContainsIffIndexOf | VehicleRow.tsx:12 | `includes` holds exactly when the search finds a position |
| Text.ContainsTransitive | VehicleRow.tsx:33-35 | a label that contains a word contains every word that word contains |
| Text.PrefixContains | VehicleRow.tsx:37 | a label that starts with a word also contains it |
| Text.Trim | components/VehicleRow.tsx:58 | `trim`: the result has no white space at either end, and it is a slice of the input with only white space cut away on each side |
| Text.TrimOfTrimmed | trelloService.ts:121 | a string with no white space at its ends is its own trim |
| Text.TrimIdempotent | components/VehicleRow.tsx:58 | trimming twice is trimming once |
| Text.Split | trelloService.ts:121 | `split` on one character: there is always at least one part, and no part contains the separator |
| Text.JoinSplit | trelloService.ts:121 | joining the parts with the separator gives back the split string |
| Text.SplitJoin | trelloService.ts:121 | splitting a join of separator-free parts gives back the parts |
| Text.SplitNoSeparator | trelloService.ts:121 | a string without the separator splits into itself alone |
| Text.SplitChars | components/VehicleRow.tsx:49 | every character of every part occurs in the split string; more than one part means the separator occurs |
| Text.Utf16Length | VehicleRow.tsx:107 | `length` counts UTF-16 code units: between the number of code points and twice that |
| Text.RemoveFirst | VehicleRow.tsx:64 | `replace(k, '')`: unchanged when `k` does not occur; otherwise only the first occurrence is removed |
| StageRules.Classify | VehicleRow.tsx:10-26 | the category of the lower-cased label is the default exactly when no rule holds, and otherwise the category of a rule that holds with no earlier rule holding |
| StageRules.FirstMatchDecided | VehicleRow.tsx:12-24 | a result other than the default comes from a rule that holds, with no earlier rule holding |
| StageRules.FirstMatchAt | VehicleRow.tsx:12-26 | the first rule that holds decides the category |
| StageRules.FirstMatchNone | VehicleRow.tsx:26 | the default category comes out exactly when no rule holds |
| StageRules.FirstMatchIff | VehicleRow.tsx:12-24 | rule `i`'s category comes out exactly when rule `i` holds and no earlier rule does |
| StageRules.FirstMatchInTable | VehicleRow.tsx:12-26 | the result is a category of the table or the default: the classifier is total |
| StageRules.RulesDistinct | VehicleRow.tsx:12-24 | the nine rules give nine different categories, none of them the default |
| StageRules.CategoryChain | VehicleRow.tsx:12-26 | the rule table decides as the chain of early returns does, test by test |
| StageRules.ClassifyChain | VehicleRow.tsx:10-26 | the same, for a label that is lower-cased first |
| StageRules.ClassifyIsFirstMatch | components/VehicleRow.tsx:13-33 | a label gets rule `i`'s category exactly when rule `i` holds of the lower-cased label and no earlier rule does |
| StageRules.ClassifyLowered | VehicleRow.tsx:10 | classification and flags ignore upper and lower case |
| StageRules.IsRejectedText | VehicleRow.tsx:33 | the rejection test: 'não aprovado' or 'nao aprovado' occurs; such a label also contains 'aprovado' |
| StageRules.RejectedMentionsApproved | VehicleRow.tsx:33-35 | a label that contains 'não aprovado' or 'nao aprovado' also contains 'aprovado' |
| StageRules.RejectionHidesApproval | VehicleRow.tsx:12-14 | a rejected label contains 'aprovado', yet it is classified Rejected and the check mark is not shown |
| StageRules.AwaitingEvaluationNotPending | VehicleRow.tsx:17-18 | a label with both 'avaliação' and 'aguardando' never gets the yellow pending category; with no earlier keyword it is the dim awaiting-evaluation category |
| StageRules.ServiceBeforeApproved | components/VehicleRow.tsx:22-25 | a label with 'serviço' never gets the Approved category, because 'serviço' is tested first; with no earlier keyword it is InService |
| StageRules.Flags | VehicleRow.tsx:33-37 | the rejected flag holds exactly when the category is Rejected; rejected implies the 'aprovado' flag; the awaiting flag implies 'aguardando' occurs; the test and service flags bound the category |
| StageRules.ShowsApprovedCheck | VehicleRow.tsx:91 | the check mark shows exactly when 'aprovado' occurs in the lower-cased label and the label is not classified Rejected |
| StageRules.ApprovedCheckCategory | VehicleRow.tsx:91 | the check mark needs 'aprovado' in the label, and such a label is classified no later than Approved and never Rejected |
| StageRules.RejectedLabelIsRejected | VehicleRow.tsx:39 | the shown label "Não Aprovado" is itself a rejected label |
| StageRules.DisplayStage | VehicleRow.tsx:39 | "Não Aprovado" exactly when the rejected test holds, otherwise the label unchanged; the shown label classifies as the original does |
| Stages.AguardandoAvaliacaoClass | types.ts:3 | "Aguardando Avaliação" is AwaitingEvaluation |
| Stages.EmAvaliacaoClass | types.ts:4 | "Em Avaliação" is PendingDecision |
| Stages.AvaliacaoTecnicaClass | types.ts:5 | "Avaliação Técnica" is PendingDecision |
| Stages.AguardandoAprovacaoClass | types.ts:6 | "Aguardando Aprovação" is PendingDecision |
| Stages.AprovadoStageClass | types.ts:7 | "Aprovado" is Approved |
| Stages.OrcamentoAprovadoClass | types.ts:8 | "Orçamento Aprovado" is Approved |
| Stages.EmServicoClass | types.ts:9 | "Em Serviço" is InService |
| Stages.AguardandoPecasClass | types.ts:10 | "Aguardando Peças" is AwaitingParts |
| Stages.FaseDeTesteClass | types.ts:11 | "Fase de Teste" is InTest |
| Stages.FinalizadoStageClass | types.ts:12 | "Finalizado" is Finalized |
| Stages.GarantiaStageClass | types.ts:13 | "Garantia" is Warranty |
| Stages.OrcamentoNaoAprovadoClass | types.ts:14 | "Orçamento Não Aprovado" is Rejected |
| Stages.NamedStageCategories | types.ts:2-14 | each of the twelve named stages lands in the category its name calls for |
| Stages.OrcamentoNaoAprovadoIsRejected | VehicleRow.tsx:33-39 | "Orçamento Não Aprovado" contains 'aprovado', yet it is Rejected, is shown as "Não Aprovado" and gets no check mark |
| Styles.RootTone | VehicleRow.tsx:12-26 | the root palette: the plain zinc tone exactly for the default category, the strong purple exactly for Rejected |
| Styles.ComponentTone | components/VehicleRow.tsx:13-33 | the component palette: the plain zinc tone exactly for the default category, the soft purple exactly for Rejected |
| Styles.PalettesInjective | VehicleRow.tsx:12-26 | in each palette, different categories get different tones |
| Styles.PalettesDifferAt | components/VehicleRow.tsx:13-33 | the two palettes differ exactly at Rejected, Warranty, AwaitingEvaluation, Approved and Finalized |
| Styles.PalettesDisjointElsewhere | components/VehicleRow.tsx:13-33 | neither palette gives a category the tone the other palette gives a different category |
| RootRow.GetStageColors | VehicleRow.tsx:9-27 | the chain of early returns gives the root palette's tone for the label's category |
| RootRow.ShowsAwaitingClock | VehicleRow.tsx:84 | the clock shows exactly when the lower-cased label starts with 'aguardando', does not contain 'teste', and is not classified Rejected |
| RootRow.EmphasisOf | VehicleRow.tsx:116-120 | the loud style exactly when overdue, the pulsing style exactly when highlighted and not overdue |
| RootRow.View | VehicleRow.tsx:29-131 | the row: tone from the category; cross exactly for Rejected; check mark exactly when 'aprovado' occurs and the label is not Rejected; clock exactly when the label starts with 'aguardando' and is neither a test drive nor Rejected; car exactly with 'teste'; dot exactly with 'serviço'; the shown label; the delivery status and its emphasis; the model title |
| RootRow.RejectedRow | VehicleRow.tsx:84-97 | a rejected row is purple and crossed, shows "Não Aprovado", and has neither the check mark nor the clock |
| RootRow.LeadingSpaceHidesClock | VehicleRow.tsx:37 | a label that begins with white space never shows the clock: the prefix test is made without trimming |
| RootRow.CheckAndCrossExclusive | VehicleRow.tsx:91-97 | the check mark and the cross are never shown together |
| ComponentRow.GetStageColors | components/VehicleRow.tsx:9-34 | the same chain gives the component palette's tone for the label's category |
| ComponentRow.VariantsShareOrder | components/VehicleRow.tsx:9-34 | both components classify every label the same way; their tones agree exactly outside the five categories whose palettes differ |
| ComponentRow.InitialAsWritten | components/VehicleRow.tsx:50 | `p[0]` in a template: the first character of a non-empty part, and the text "undefined" for an empty part |
| ComponentRow.FormatMechanicNameAsWritten | components/VehicleRow.tsx:47-52 | placeholders and one-part names unchanged; otherwise first part, space, first letter of the second part, full stop, and when the second part is empty (a trailing or doubled space) the first part followed by " undefined." |
| ComponentRow.TrailingSpaceGivesUndefined | components/VehicleRow.tsx:49-50 | "Marcos " becomes "Marcos undefined.", with letters that are not in the name |
| ComponentRow.Words | components/VehicleRow.tsx:49 | exactly the non-empty parts of the split are words |
| ComponentRow.WordsAppend | components/VehicleRow.tsx:49 | the words keep the parts' order: the words of two lists one after the other are the first list's words, then the second's |
| ComponentRow.WordsFirst | components/VehicleRow.tsx:49 | the first word is the first non-empty part |
| ComponentRow.FormatMechanicName | components/VehicleRow.tsx:47-52 | the empty name, 'Pátio' and 'TBD' unchanged; a one-word name unchanged; otherwise first word, space, initial of the second word, full stop; every character of the result is in the name or is '.' |
| ComponentRow.FormatAgreesOnWords | components/VehicleRow.tsx:49-50 | where the first two parts are words, the corrected rule gives what the written one gives |
| ComponentRow.AbbreviatesTwoParts | components/VehicleRow.tsx:49-50 | a name that splits into two parts, the second non-empty, becomes the first part, a space, the second part's initial and a full stop |
| ComponentRow.AbbreviatedAsWritten | components/VehicleRow.tsx:50 | "Marcos Silva" becomes "Marcos S." as written |
| ComponentRow.AbbreviatedExample | components/VehicleRow.tsx:50 | "Marcos Silva" becomes "Marcos S." under both rules |
| ComponentRow.View | components/VehicleRow.tsx:36-111 | the row: tone from the category; cross exactly for Rejected; check mark exactly when 'aprovado' occurs and the label is not Rejected; car exactly with 'teste'; dot exactly with 'serviço'; the shown label; delivery text as given, smaller exactly when it contains 'ATRASADO'; the mechanic abbreviated by `formatMechanicName` as written |
| ComponentRow.RowsAgreeOnStage | components/VehicleRow.tsx:39-45 | the two components agree on the cross, check mark, car, dot, shown label and title |
| ComponentRow.RejectedRow | components/VehicleRow.tsx:13-15 | a rejected row is the soft purple tone and crossed, shows "Não Aprovado" and no check mark |
| Delivery.DeliveryStatus | VehicleRow.tsx:41-55 | overdue exactly when the due day is before today, highlighted exactly when it is not after today; overdue implies highlighted; the text is "ATRASADO", "HOJE" or the fallback accordingly; without a usable due date, the fallback with both flags false |
| Delivery.NoDueDateIgnoresToday | VehicleRow.tsx:42 | without a due date the status is the fallback text, whatever day it is |
| Delivery.DueDateCases | VehicleRow.tsx:52-54 | before today: ATRASADO, highlighted, delayed; today: HOJE, highlighted; after today: the fallback, neither |
| Delivery.StatusMonotone | VehicleRow.tsx:49-53 | once highlighted or overdue, a status stays so on later days |
| Delivery.StatusShiftInvariant | VehicleRow.tsx:49 | only the distance between the due day and today matters |
| Delivery.CeilDiv | VehicleRow.tsx:50 | `Math.ceil(a / b)`: the least whole number at or above the quotient |
| Delivery.StatusFromSpanAsWritten | VehicleRow.tsx:49-54 | the written computation: delayed exactly when the span is at least a day back, highlighted exactly when it is not ahead; the label is "ATRASADO", "HOJE" or the fallback accordingly |
| Delivery.WholeDaysAgree | VehicleRow.tsx:44-54 | when every day has 24 hours, the written computation is the calendar-day status |
| Delivery.SpringForwardSaysToday | VehicleRow.tsx:50-53 | a span of minus 23 hours gives "HOJE", while the car was due the day before |
| Delivery.RoundDiv | VehicleRow.tsx:50 | rounding to the nearest whole day |
| Delivery.StatusFromSpan | VehicleRow.tsx:49-54 | the corrected computation: overdue exactly when the span is more than half a day back, highlighted exactly when it is less than half a day ahead; the label is "ATRASADO", "HOJE" or the fallback accordingly |
| Delivery.RoundedSpanAgrees | VehicleRow.tsx:44-54 | rounded to the nearest day, a span off whole days by under half a day gives the calendar-day status |
| Workshop.ModelTitle | VehicleRow.tsx:64 | no white space at either end; the trimmed input when "Land Rover" does not occur; otherwise its first occurrence is removed, then the rest is trimmed |
| Workshop.ModelTitleStable | components/VehicleRow.tsx:58 | a title that no longer names the brand is its own title |
| Workshop.EvoqueTitle | VehicleRow.tsx:64 | "Land Rover Evoque" shows as "Evoque" |
| Trello.EnvValue | trelloService.ts:6 | `env?.[key]`: the value when the object and key exist, otherwise the empty string |
| Trello.GetEnv | trelloService.ts:5-7 | the Vite value when it is non-empty, otherwise the process value; a ReferenceError exactly when the Vite value is empty and `process` is not declared |
| Trello.GetEnvFirstNonEmpty | trelloService.ts:6 | with `process` declared: a non-empty Vite value is the result, otherwise the process value is; the result is empty only when both are |
| Trello.LoadConfig | trelloService.ts:9-11 | the three settings read through `getEnv`; loading fails exactly when `process` is missing and some Vite value is empty |
| Trello.ListMapOf | trelloService.ts:115-118 | every list's id is a key, and every key is some list's id |
| Trello.ListMapLastWins | trelloService.ts:116 | the last list with an id decides that id's name |
| Trello.BuildListMap | trelloService.ts:115-118 | the loop builds the reference table: every id is a key, and it maps to the name of the last list with that id |
| Trello.LastListWins | trelloService.ts:115-118 | every key maps to the name of the last list with that id |
| Trello.NameParts | trelloService.ts:121 | the card name split on '-', one trimmed part per piece |
| Trello.Field | trelloService.ts:126-128 | part `i`, or the default when it is missing or empty |
| Trello.StageFor | trelloService.ts:129 | the list's name, or 'Aguardando Avaliação' when the id is unknown or its name is empty; never empty |
| Trello.MechanicOf | trelloService.ts:132 | the first member's full name, or 'Pátio'; never empty |
| Trello.DefaultsTrimmed | trelloService.ts:126-128 | the defaults 'Veículo', '---' and 'Cliente' are trimmed |
| Trello.CardToVehicle | trelloService.ts:120-135 | id kept; model, plate and client are parts 0 to 2 with their defaults, never empty and trimmed; stage and mechanic with their defaults; without a due date '---' and no raw date, with one its text and date |
| Trello.MapCards | trelloService.ts:120 | one vehicle per card, in card order, each with its card's id |
| Trello.CardNameRoundTrip | trelloService.ts:121-128 | a card named model-plate-client gives back the three fields when they are trimmed, non-empty and free of '-' |
| Trello.HyphenatedPlateShiftsFields | trelloService.ts:121-128 | a plate written with its own hyphen is cut in two: the plate is its letters, the client its digits |
| Trello.NameWithoutDash | trelloService.ts:121-128 | a name without '-' is all model; plate and client take their defaults |
| Trello.FetchWorkshopData | trelloService.ts:94-148 | unconfigured: the demonstration board with the mock vehicles; configured and failed: the offline board with the mock vehicles; configured and fetched: the live board with the mapped cards |
| Trello.BoardNameTellsPath | trelloService.ts:96-146 | each board name appears exactly on its own path, and every path but the live one shows the mock vehicles |
| Trello.LiveVehiclesFollowCards | trelloService.ts:120-140 | on the live path, one vehicle per card, in order, with the card's id |

## Left out

- Markup, Tailwind class strings, animations and icons are not modelled. Each
  colour triple is one `Styles.Tone` value, and each icon is a boolean of the row view.
- `fetch`, `Promise.all` and `.json()` are network I/O. A `Trello.FetchOutcome`
  stands for them. `Failed` covers every exception the
  `try` block catches, including a payload that does not have the expected shape.
  `Fetched` carries payloads that decoded into the modelled records.
- `console.warn` and `console.error` (trelloService.ts:97, 142) are logging and
  are not modelled.
- `import.meta.env` and `process.env` are parameters of `Trello.GetEnv` and
  `Trello.LoadConfig`. Their values are taken to be strings.
- Parsing a date with `new Date`, `setHours` and the time zone is not modelled.
  `Delivery.DueDate` gives the local calendar day directly, or marks an Invalid
  Date, whose NaN difference makes both comparisons false.
- `toLocaleDateString` and `toLocaleTimeString` are locale formatting, so
  `DueStamp.shown`, `deliveryDate` and `lastActivity` are given strings.
- `MOCK_VEHICLES` is data whose dates come from the real clock. It is the
  parameter `mock` of `Trello.FetchWorkshopData`.
- Text.Lower: lower-cases ASCII and Latin-1 capitals only, not the whole of
  Unicode. The keywords and stage names need no other letters.
- Text.Utf16Length: Dafny strings hold code points. JavaScript's UTF-16 units
  matter only for `length` and `p[0]`. `ComponentRow.InitialAsWritten` takes the
  whole first code point, where JavaScript would take half of a surrogate pair.
- RootRow.View: the font-size choice is stated only as bounds on the label's
  length in code points (more than 15 gives the small font; the small font needs
  more than 7). The exact rule is `Text.Utf16Length` in the body.
- ComponentRow.View: the same bounds for the font size.
- `listMap` is a plain object, so an unknown id such as `constructor` reads an
  inherited property (truthy) instead of falling back to the default stage. The
  model treats every unknown id as missing.
- types.ts holds only type declarations. Its twelve stage names appear in `Stages`.

## Findings

The component row shows the mechanic through `formatMechanicName` as written
(`ComponentRow.View` uses `ComponentRow.FormatMechanicNameAsWritten`).
`ComponentRow.FormatMechanicName` is the corrected rule; `ComponentRow.FormatAgreesOnWords`
proves that the two agree whenever the first two parts are real words.

The rows use the calendar-day status `Delivery.DeliveryStatus`.
`Delivery.RoundedSpanAgrees` proves that the corrected millisecond computation
`Delivery.StatusFromSpan` gives the same status when the span is off whole days
by less than half a day, as it is across a daylight-saving change.

| source | as written | input that shows it | evidently intended | confidence | as-written member | corrected member |
|---|---|---|---|---|---|---|
| components/VehicleRow.tsx:49-50 | the initial is `parts[1][0]`; an empty second part makes it `undefined`, written into the name | "Marcos " (a trailing space) or "Marcos  Silva" (two spaces) gives "Marcos undefined." | abbreviate with the initial of the next actual word | not executed | ComponentRow.TrailingSpaceGivesUndefined | ComponentRow.FormatMechanicName |
| VehicleRow.tsx:44-53 | the day difference is `Math.ceil` of the millisecond span between two local midnights divided by 24 hours | due on the day the clocks went forward, viewed the next day: the span is −23 h, which rounds up to 0, so the row says "HOJE" instead of "ATRASADO" | a calendar-day difference (rounding to the nearest day gives it) | not executed | Delivery.SpringForwardSaysToday | Delivery.StatusFromSpan |
