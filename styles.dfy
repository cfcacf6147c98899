// Colour tones of a dashboard row. Each constructor stands for one Tailwind
// class triple (background, text, border); the two row components pick from
// the same set with two palettes.

module Styles {
  import opened StageRules

  datatype Tone =
    | PurpleStrong   // bg-purple-600 text-white border-purple-500
    | PurpleSoft     // bg-purple-400 text-white border-purple-300
    | RedStrong      // bg-red-700 text-white border-red-600
    | RedSoft        // bg-red-600 text-white border-red-500
    | ZincFaint      // bg-zinc-900 text-zinc-500 border-zinc-800
    | ZincFaded      // bg-zinc-900 text-zinc-400 border-zinc-800
    | Yellow         // bg-yellow-400 text-yellow-950 border-yellow-300
    | Blue           // bg-blue-600 text-white border-blue-500
    | OrangeStrong   // bg-orange-600 text-white border-orange-500
    | OrangeSoft     // bg-orange-500 text-white border-orange-400
    | Cyan           // bg-cyan-500 text-white border-cyan-400
    | Green          // bg-green-600 text-white border-green-500
    | GreenDeep      // bg-green-800 text-white border-green-700
    | ZincMuted      // bg-zinc-800 text-zinc-400 border-zinc-700
    | ZincPlain      // bg-zinc-800 text-white border-zinc-700

  /** The palette of the top-level row component. The plain tone is the default's
      alone, and the strong purple is the rejection's alone. */
  function RootTone(c: Category): (t: Tone)
    ensures t == ZincPlain <==> c == Unclassified
    ensures t == PurpleStrong <==> c == Rejected
  {
    match c
    case Rejected => PurpleStrong
    case Warranty => RedStrong
    case AwaitingEvaluation => ZincFaint
    case PendingDecision => Yellow
    case InService => Blue
    case Approved => OrangeStrong
    case AwaitingParts => Cyan
    case InTest => Green
    case Finalized => ZincMuted
    case Unclassified => ZincPlain
  }

  /** The palette of the row component under components/. The plain tone is the
      default's alone, and the soft purple is the rejection's alone. */
  function ComponentTone(c: Category): (t: Tone)
    ensures t == ZincPlain <==> c == Unclassified
    ensures t == PurpleSoft <==> c == Rejected
  {
    match c
    case Rejected => PurpleSoft
    case Warranty => RedSoft
    case AwaitingEvaluation => ZincFaded
    case PendingDecision => Yellow
    case InService => Blue
    case Approved => OrangeSoft
    case AwaitingParts => Cyan
    case InTest => Green
    case Finalized => GreenDeep
    case Unclassified => ZincPlain
  }

  /** Each palette gives every category its own tone, so a row's colour tells its category. */
  lemma PalettesInjective(c1: Category, c2: Category)
    ensures RootTone(c1) == RootTone(c2) ==> c1 == c2
    ensures ComponentTone(c1) == ComponentTone(c2) ==> c1 == c2
  {
  }

  /** The palettes differ exactly at the rejected, warranty, awaiting-evaluation,
      approved and finalized categories. */
  lemma PalettesDifferAt(c: Category)
    ensures RootTone(c) != ComponentTone(c) <==> c in {Rejected, Warranty, AwaitingEvaluation, Approved, Finalized}
  {
  }

  /** No tone of one palette is used by the other palette for another category. */
  lemma PalettesDisjointElsewhere(c1: Category, c2: Category)
    requires c1 != c2
    ensures RootTone(c1) != ComponentTone(c2)
  {
  }
}
