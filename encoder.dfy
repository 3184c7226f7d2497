/** The texts handed to the embedding model: a proposal or a publication
    flattened into one string. The model itself is not part of this model. */
module Encoder {
  import opened Models
  import opened Strings

  /** The parts of a proposal's text: the title, then the description, the
      keyword line and the additional context, each only when non-empty. */
  function ProposalParts(proposal: UserProposal): seq<string> {
    [proposal.title]
    + (if proposal.Description() != "" then [proposal.Description()] else [])
    + (if proposal.keywords != [] then ["Keywords: " + Join(", ", proposal.keywords)] else [])
    + (if proposal.additionalContext != "" then [proposal.additionalContext] else [])
  }

  function ProposalText(proposal: UserProposal): string {
    Join(" ", ProposalParts(proposal))
  }

  /** Build the parts list by conditional appends, then join with spaces. */
  method FormatProposalText(proposal: UserProposal) returns (text: string)
    ensures text == ProposalText(proposal)
    ensures StartsWith(text, proposal.title)
  {
    var parts := [proposal.title];
    var description := proposal.Description();
    if description != "" {
      parts := parts + [description];
    }
    if proposal.keywords != [] {
      parts := parts + ["Keywords: " + Join(", ", proposal.keywords)];
    }
    if proposal.additionalContext != "" {
      parts := parts + [proposal.additionalContext];
    }
    assert parts == ProposalParts(proposal);
    text := Join(" ", parts);
    JoinStartsWith(" ", parts);
  }

  /** What a proposal's text contains: the description (topic description,
      else abstract) when non-empty, the keyword line and every keyword when
      there are keywords, and the additional context when non-empty. */
  lemma ProposalTextContents(proposal: UserProposal)
    ensures StartsWith(ProposalText(proposal), proposal.title)
    ensures proposal.Description() != "" ==> Contains(ProposalText(proposal), proposal.Description())
    ensures proposal.keywords != [] ==>
      Contains(ProposalText(proposal), "Keywords: " + Join(", ", proposal.keywords))
    ensures forall k :: 0 <= k < |proposal.keywords| ==> Contains(ProposalText(proposal), proposal.keywords[k])
    ensures proposal.additionalContext != "" ==> Contains(ProposalText(proposal), proposal.additionalContext)
  {
    var parts := ProposalParts(proposal);
    var text := ProposalText(proposal);
    JoinStartsWith(" ", parts);
    var d := if proposal.Description() != "" then 1 else 0;
    if d == 1 {
      JoinContains(" ", parts, 1);
    }
    if proposal.keywords != [] {
      var line := "Keywords: " + Join(", ", proposal.keywords);
      assert parts[1 + d] == line;
      JoinContains(" ", parts, 1 + d);
      forall k | 0 <= k < |proposal.keywords| ensures Contains(text, proposal.keywords[k]) {
        JoinContains(", ", proposal.keywords, k);
        ContainsShift(Join(", ", proposal.keywords), proposal.keywords[k], "Keywords: ", "");
        assert "Keywords: " + Join(", ", proposal.keywords) + "" == line;
        ContainsTrans(text, line, proposal.keywords[k]);
      }
    }
    if proposal.additionalContext != "" {
      JoinContains(" ", parts, |parts| - 1);
    }
  }

  /** A proposal with only a title is embedded as its title. */
  lemma ProposalTextTitleOnly(proposal: UserProposal)
    ensures proposal.Description() == "" && proposal.keywords == [] && proposal.additionalContext == "" ==>
      ProposalText(proposal) == proposal.title
  {
  }

  /** With every part present the parts appear in order, separated by single
      spaces. */
  lemma ProposalTextFull(proposal: UserProposal)
    ensures proposal.Description() != "" && proposal.keywords != [] && proposal.additionalContext != "" ==>
      ProposalText(proposal) ==
        proposal.title + " " + proposal.Description() + " " + "Keywords: " + Join(", ", proposal.keywords)
        + " " + proposal.additionalContext
  {
    var parts := ProposalParts(proposal);
    if |parts| == 4 {
      assert parts[1..][1..][1..] == [parts[3]];
      assert Join(" ", parts[1..][1..]) == parts[2] + " " + parts[3];
      assert Join(" ", parts[1..]) == parts[1] + " " + (parts[2] + " " + parts[3]);
    }
  }

  /** The parts of a publication's text: the title, then the best abstract
      when non-empty. */
  function PublicationParts(pub: Publication): seq<string> {
    [pub.title] + (if pub.BestAbstract() != "" then [pub.BestAbstract()] else [])
  }

  /** Build the parts list, then join with spaces. */
  method FormatPublicationText(pub: Publication) returns (text: string)
    ensures text == Join(" ", PublicationParts(pub))
    ensures pub.BestAbstract() == "" ==> text == pub.title
    ensures pub.BestAbstract() != "" ==> text == pub.title + " " + pub.BestAbstract()
  {
    var parts := [pub.title];
    var abstractText := pub.BestAbstract();
    if abstractText != "" {
      parts := parts + [abstractText];
    }
    text := Join(" ", parts);
  }

  /** The full abstract wins over the short one; the short one is used only
      when there is no full abstract. */
  lemma PublicationTextPrefersFull(pub: Publication)
    ensures pub.fullAbstract != "" ==> Join(" ", PublicationParts(pub)) == pub.title + " " + pub.fullAbstract
    ensures pub.fullAbstract == "" && pub.shortAbstract != "" ==>
      Join(" ", PublicationParts(pub)) == pub.title + " " + pub.shortAbstract
    ensures pub.fullAbstract == "" && pub.shortAbstract == "" ==> Join(" ", PublicationParts(pub)) == pub.title
  {
  }
}
