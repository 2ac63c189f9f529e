/** The reaction badges under a message bubble
    (components/MessageReactions.tsx): only reactions with a positive count are
    shown, and nothing is rendered when none is. */
module MessageReactions {
  import opened Seqs

  /** One emoji's tally on one message, as the message list computes it. */
  datatype Reaction = Reaction(emoji: string, count: int, reacted: bool)

  predicate HasCount(r: Reaction) { r.count > 0 }

  /** `reactions.filter(r => r.count > 0)`. */
  function Shown(reactions: seq<Reaction>): (shown: seq<Reaction>)
    ensures forall i :: 0 <= i < |shown| ==> shown[i].count > 0
    ensures forall r :: multiset(shown)[r] == if r.count > 0 then multiset(reactions)[r] else 0
    ensures IsSubsequence(shown, reactions)
  {
    FilterMultiset(HasCount, reactions);
    FilterIsSubsequence(HasCount, reactions);
    Filter(HasCount, reactions)
  }

  /** The component returns `null`: the filtered list is empty. */
  predicate RendersNothing(reactions: seq<Reaction>)
  {
    |Shown(reactions)| == 0
  }

  /** Nothing is rendered exactly when no reaction has a positive count. */
  lemma RendersNothingIffNoCount(reactions: seq<Reaction>)
    ensures RendersNothing(reactions) <==> forall i :: 0 <= i < |reactions| ==> reactions[i].count <= 0
  {
    FilterEmpty(HasCount, reactions);
  }

  /** No reaction with a positive count is dropped: each one, at each of its
      positions, is among the shown badges. */
  lemma PositiveReactionIsShown(reactions: seq<Reaction>, i: nat)
    requires i < |reactions| && reactions[i].count > 0
    ensures reactions[i] in Shown(reactions)
  {
    assert multiset(reactions)[reactions[i]] > 0;
  }

  /** Showing is idempotent: the shown list shows everything it holds. */
  lemma ShownIdempotent(reactions: seq<Reaction>)
    ensures Shown(Shown(reactions)) == Shown(reactions)
  {
    FilterKeepsAll(HasCount, Shown(reactions));
  }
}
