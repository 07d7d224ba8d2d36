/** What the packet fitter keeps and in which order it gives things up. */
module PacketLaws {
  import opened Common
  import opened Packets

  /** Dropping cards shrinks the packet, so the cards that fit form a longest prefix. */
  lemma FewerCardsAreSmaller(p: Packet, k: nat, l: nat)
    requires k < l <= |p.cards|
    ensures PacketSize(WithCards(p, k)) < PacketSize(WithCards(p, l))
  {
    var full, cut := WithCards(p, l), WithCards(p, k);
    var i := |HeadFields(full)|;
    var fields := PacketJson(full).fields;
    assert fields[i] == Field("\"methodology_cards\"", Array(full.cards));
    ReplacingAField(fields, i, Array(cut.cards));
    assert PacketJson(cut).fields == fields[i := Field(fields[i].key, Array(cut.cards))];
    assert full.cards[..k] == cut.cards;
    TruncationShrinks(full.cards, k);
  }

  lemma FewerReferencesAreSmaller(p: Packet, k: nat, l: nat)
    requires k < l <= |References(p)|
    ensures PacketSize(WithReferences(p, k)) < PacketSize(WithReferences(p, l))
  {
    var full, cut := WithReferences(p, l), WithReferences(p, k);
    var skillFields := SkillJson(full.skill).fields;
    var references := Array(p.skill.references[..k]);
    ReplacingAField(skillFields, 2, references);
    assert SkillJson(cut.skill).fields == skillFields[2 := Field("\"references\"", references)];
    assert p.skill.references[..l][..k] == p.skill.references[..k];
    TruncationShrinks(p.skill.references[..l], k);
    var fields := PacketJson(full).fields;
    var i := |fields| - 1;
    ReplacingAField(fields, i, SkillJson(cut.skill));
    assert PacketJson(cut).fields == fields[i := Field("\"triage_skill\"", SkillJson(cut.skill))];
  }

  /** When only cards are dropped, the kept ones are the longest prefix that fits. */
  lemma KeepsLongestPrefixOfCards(p: Packet, limit: nat, n: nat, k: nat)
    requires FirstFit(p, limit, n) && n <= |p.cards| && k <= |p.cards|
    ensures PacketSize(WithCards(p, k)) <= limit <==> k <= |p.cards| - n
  {
    var kept := |p.cards| - n;
    if k < kept {
      FewerCardsAreSmaller(p, k, kept);
    } else if k > kept {
      assert Level(p, |p.cards| - k) == WithCards(p, k);
    }
  }

  /**
    When references are dropped, no prefix of the cards would have done, and the kept references are the
    longest prefix that fits.
  */
  lemma KeepsLongestPrefixOfReferences(p: Packet, limit: nat, n: nat, k: nat)
    requires FirstFit(p, limit, n) && |p.cards| < n <= |p.cards| + |References(p)|
    ensures k <= |p.cards| ==> PacketSize(WithCards(p, k)) > limit
    ensures k <= |References(p)| ==>
      (PacketSize(WithReferences(p, k)) <= limit <==> k <= |p.cards| + |References(p)| - n)
  {
    var c, r := |p.cards|, |References(p)|;
    if k <= c {
      assert Level(p, c - k) == WithCards(p, k);
    }
    if k <= r {
      var kept := c + r - n;
      if k < kept {
        FewerReferencesAreSmaller(p, k, kept);
      } else if k > kept {
        WholeReferences(p);
        assert Level(p, c + r - k) == WithReferences(p, k);
      }
    }
  }

  /** The rung where all cards are gone is also the first rung of the references. */
  lemma WholeReferences(p: Packet)
    ensures Level(p, |p.cards|) == WithReferences(p, |References(p)|)
  {
    assert p.cards[..0] == [];
    assert References(p)[..|References(p)|] == References(p);
  }

  ghost predicate SameEventFrame(a: Option<EventPart>, b: Option<EventPart>) {
    && (a.Some? <==> b.Some?)
    && (a.Some? && b.Some? ==> a.value.before == b.value.before && a.value.after == b.value.after)
  }

  ghost predicate SameCandidateFrame(a: Option<CandidatePart>, b: Option<CandidatePart>) {
    && (a.Some? <==> b.Some?)
    && (a.Some? && b.Some? ==> a.value.before == b.value.before && a.value.between == b.value.between)
  }

  /** No rung touches ids, evidence ids, program, constraints, task or version. */
  lemma IdentityIsNeverAltered(p: Packet, n: nat)
    requires n <= Rungs(p)
    ensures var q := Level(p, n);
      && q.constraints == p.constraints && q.program == p.program && q.task == p.task && q.version == p.version
      && SameEventFrame(p.event, q.event) && SameCandidateFrame(p.candidate, q.candidate)
      && q.cards <= p.cards
  {
  }

  /** Nothing is given up before everything ranked below it has been. */
  lemma GivesUpInOrder(p: Packet, n: nat)
    requires n <= Rungs(p)
    ensures var q := Level(p, n);
      && (q.skill != p.skill ==> q.cards == [])
      && (q.event != p.event ==> q.cards == [] && !q.skill.FullSkill?)
      && (q.candidate != p.candidate ==>
            && q.cards == [] && !q.skill.FullSkill?
            && (q.event.Some? ==> q.event.value.payload == BARE))
      && (q.candidate.Some? && q.candidate.value.hypothesis != p.candidate.value.hypothesis ==>
            q.candidate.value.verification == KeysOnly(p.candidate.value.verification))
  {
    if n <= |p.cards| {
      assert p.cards[..|p.cards|] == p.cards;
    }
  }

  /** A packet that fits as it is comes back unchanged. */
  lemma FittingPacketIsUntouched(p: Packet, limit: nat, n: nat)
    requires FirstFit(p, limit, n) && PacketSize(p) <= limit
    ensures n == 0 && Level(p, n) == p
  {
    assert p.cards[..|p.cards|] == p.cards;
    assert Level(p, 0) == p;
  }
}
