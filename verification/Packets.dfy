/** Fitting an LLM packet under its byte ceiling by staged degradation (bbpipeline/packets.py). */
module Packets {
  import opened Common

  // ---------------------------------------------------------------- JSON and its rendered size

  /** The rendering of a scalar or of a key; never empty. */
  type Token = s: string | s != "" witness "0"

  /** JSON values in the sense of sections 4 and 5 of RFC 8259; fields are kept in key order. */
  datatype Json = Scalar(text: Token) | Array(items: seq<Json>) | Object(fields: seq<Field>)

  datatype Field = Field(key: Token, value: Json)

  function CharBytes(c: char): nat {
    var code := c as int;
    if code < 0x80 then 1 else if code < 0x800 then 2 else if code < 0x10000 then 3 else 4
  }

  /** The bytes of a code point in UTF-8: a leading byte that tells the length, then six bits a byte. */
  function Encoded(code: nat): seq<int> {
    if code < 0x80 then [code]
    else if code < 0x800 then [0xC0 + code / 0x40, 0x80 + code % 0x40]
    else if code < 0x10000 then [0xE0 + code / 0x1000, 0x80 + code / 0x40 % 0x40, 0x80 + code % 0x40]
    else [0xF0 + code / 0x40000, 0x80 + code / 0x1000 % 0x40, 0x80 + code / 0x40 % 0x40, 0x80 + code % 0x40]
  }

  /** The code point that a group of bytes stands for. */
  function Decoded(bytes: seq<int>): int {
    match |bytes|
    case 1 => bytes[0]
    case 2 => (bytes[0] - 0xC0) * 0x40 + (bytes[1] - 0x80)
    case 3 => (bytes[0] - 0xE0) * 0x1000 + (bytes[1] - 0x80) * 0x40 + (bytes[2] - 0x80)
    case 4 =>
      (bytes[0] - 0xF0) * 0x40000 + (bytes[1] - 0x80) * 0x1000 + (bytes[2] - 0x80) * 0x40 + (bytes[3] - 0x80)
    case _ => -1
  }

  predicate AreBytes(s: seq<int>) {
    forall i | 0 <= i < |s| :: 0 <= s[i] < 0x100
  }

  /** A character counts as the bytes of its encoding, which are bytes and can be decoded. */
  lemma CharBytesMeaning(c: char)
    requires c as int < 0x110000
    ensures CharBytes(c) == |Encoded(c as int)| && Decoded(Encoded(c as int)) == c as int
    ensures AreBytes(Encoded(c as int))
  {
    var code := c as int;
    assert code / 0x1000 == code / 0x40 / 0x40 && code / 0x40000 == code / 0x1000 / 0x40;
  }

  function Utf8Bytes(s: string): nat {
    if s == "" then 0 else Utf8Bytes(s[..|s| - 1]) + CharBytes(s[|s| - 1])
  }

  /** json.dumps with its default separators. */
  function Render(j: Json): string {
    match j
    case Scalar(text) => text
    case Array(items) => "[" + RenderItems(items) + "]"
    case Object(fields) => "{" + RenderFields(fields) + "}"
  }

  function RenderItems(items: seq<Json>): string {
    if items == [] then ""
    else
      var last := Render(items[|items| - 1]);
      if |items| == 1 then last else RenderItems(items[..|items| - 1]) + ", " + last
  }

  function RenderFields(fields: seq<Field>): string {
    if fields == [] then ""
    else
      var f := fields[|fields| - 1];
      var last := f.key + ": " + Render(f.value);
      if |fields| == 1 then last else RenderFields(fields[..|fields| - 1]) + ", " + last
  }

  function Separator(n: nat): nat {
    if n > 1 then 2 else 0
  }

  function Size(j: Json): nat {
    match j
    case Scalar(text) => Utf8Bytes(text)
    case Array(items) => 2 + ItemsSize(items)
    case Object(fields) => 2 + FieldsSize(fields)
  }

  function ItemsSize(items: seq<Json>): nat {
    if items == [] then 0
    else ItemsSize(items[..|items| - 1]) + Separator(|items|) + Size(items[|items| - 1])
  }

  function FieldsSize(fields: seq<Field>): nat {
    if fields == [] then 0
    else
      var f := fields[|fields| - 1];
      FieldsSize(fields[..|fields| - 1]) + Separator(|fields|) + Utf8Bytes(f.key) + 2 + Size(f.value)
  }

  lemma {:induction false} Utf8Concat(a: string, b: string)
    ensures Utf8Bytes(a + b) == Utf8Bytes(a) + Utf8Bytes(b)
  {
    if b == "" {
      assert a + b == a;
    } else {
      Utf8Concat(a, b[..|b| - 1]);
      assert (a + b)[..|a + b| - 1] == a + b[..|b| - 1];
    }
  }

  lemma Delimiters()
    ensures Utf8Bytes("[") == Utf8Bytes("]") == Utf8Bytes("{") == Utf8Bytes("}") == 1
    ensures Utf8Bytes(", ") == Utf8Bytes(": ") == 2
  {
  }

  /** Size is the length in bytes of the UTF-8 rendering. */
  lemma {:induction false} SizeIsRenderedBytes(j: Json)
    ensures Size(j) == Utf8Bytes(Render(j))
    decreases j, 0
  {
    Delimiters();
    match j {
      case Scalar(_) =>
      case Array(items) =>
        ItemsSizeIsRenderedBytes(items);
        Utf8Concat("[", RenderItems(items));
        Utf8Concat("[" + RenderItems(items), "]");
      case Object(fields) =>
        FieldsSizeIsRenderedBytes(fields);
        Utf8Concat("{", RenderFields(fields));
        Utf8Concat("{" + RenderFields(fields), "}");
    }
  }

  lemma {:induction false} ItemsSizeIsRenderedBytes(items: seq<Json>)
    ensures ItemsSize(items) == Utf8Bytes(RenderItems(items))
    decreases items, 1
  {
    if items != [] {
      Delimiters();
      var init, last := items[..|items| - 1], items[|items| - 1];
      SizeIsRenderedBytes(last);
      ItemsSizeIsRenderedBytes(init);
      Utf8Concat(RenderItems(init), ", ");
      Utf8Concat(RenderItems(init) + ", ", Render(last));
    }
  }

  lemma {:induction false} FieldsSizeIsRenderedBytes(fields: seq<Field>)
    ensures FieldsSize(fields) == Utf8Bytes(RenderFields(fields))
    decreases fields, 1
  {
    if fields != [] {
      Delimiters();
      var init, f := fields[..|fields| - 1], fields[|fields| - 1];
      SizeIsRenderedBytes(f.value);
      FieldsSizeIsRenderedBytes(init);
      Utf8Concat(f.key, ": ");
      Utf8Concat(f.key + ": ", Render(f.value));
      Utf8Concat(RenderFields(init), ", ");
      Utf8Concat(RenderFields(init) + ", ", f.key + ": " + Render(f.value));
    }
  }

  lemma TokenHasBytes(t: Token)
    ensures Utf8Bytes(t) >= 1
  {
  }

  lemma SizeIsPositive(j: Json)
    ensures Size(j) >= 1
  {
    if j.Scalar? {
      TokenHasBytes(j.text);
    }
  }

  /** Truncating a list strictly shrinks it. */
  lemma {:induction false} TruncationShrinks(items: seq<Json>, n: nat)
    requires n < |items|
    ensures ItemsSize(items[..n]) < ItemsSize(items)
    decreases |items|
  {
    var init := items[..|items| - 1];
    SizeIsPositive(items[|items| - 1]);
    if n < |init| {
      TruncationShrinks(init, n);
      assert init[..n] == items[..n];
    }
  }

  /** Replacing the value of one field changes the size of the object by exactly the difference. */
  lemma {:induction false} ReplacingAField(fields: seq<Field>, i: nat, v: Json)
    requires i < |fields|
    ensures FieldsSize(fields[i := Field(fields[i].key, v)]) == FieldsSize(fields) - Size(fields[i].value) + Size(v)
    decreases |fields|
  {
    var changed := fields[i := Field(fields[i].key, v)];
    var init := fields[..|fields| - 1];
    if i < |init| {
      ReplacingAField(init, i, v);
      assert changed[..|changed| - 1] == init[i := Field(init[i].key, v)];
    } else {
      assert changed[..|changed| - 1] == init;
    }
  }

  // ---------------------------------------------------------------- packets

  /** An event: the payload among the fields the fitter leaves alone (ids, evidence ids and the rest). */
  datatype EventPart = EventPart(before: seq<Field>, payload: Json, after: seq<Field>)

  datatype CandidatePart = CandidatePart(before: seq<Field>, hypothesis: Json, between: seq<Field>, verification: Json)

  datatype Skill =
    | NoSkill
    | FullSkill(core: Json, name: Json, references: seq<Json>, role: Json)
    | SkillStub(name: Json, role: Json)

  datatype Packet = Packet(
    candidate: Option<CandidatePart>, constraints: Json, event: Option<EventPart>, cards: seq<Json>,
    version: Json, program: Json, task: Json, skill: Skill)

  const TRUE: Json := Scalar("true")

  function EventJson(e: EventPart): Json {
    Object(e.before + [Field("\"payload\"", e.payload)] + e.after)
  }

  function CandidateJson(c: CandidatePart): Json {
    Object(c.before + [Field("\"hypothesis\"", c.hypothesis)] + c.between + [Field("\"verification\"", c.verification)])
  }

  function SkillJson(s: Skill): Json {
    match s
    case NoSkill => Scalar("null")
    case FullSkill(core, name, references, role) =>
      Object([Field("\"core\"", core), Field("\"name\"", name),
              Field("\"references\"", Array(references)), Field("\"role\"", role)])
    case SkillStub(name, role) =>
      Object([Field("\"name\"", name), Field("\"role\"", role), Field("\"truncated\"", TRUE)])
  }

  function HeadFields(p: Packet): seq<Field> {
    (if p.candidate.Some? then [Field("\"candidate\"", CandidateJson(p.candidate.value))] else [])
    + [Field("\"constraints\"", p.constraints)]
    + (if p.event.Some? then [Field("\"event\"", EventJson(p.event.value))] else [])
  }

  function PacketJson(p: Packet): Json {
    Object(HeadFields(p)
           + [Field("\"methodology_cards\"", Array(p.cards)), Field("\"packet_version\"", p.version),
              Field("\"program\"", p.program), Field("\"task\"", p.task),
              Field("\"triage_skill\"", SkillJson(p.skill))])
  }

  function PacketSize(p: Packet): nat {
    Size(PacketJson(p))
  }

  // ---------------------------------------------------------------- the degradation ladder

  /** The first fifty keys of an object, as JSON. */
  function KeyList(j: Json): seq<Json> {
    if !j.Object? then []
    else seq(if |j.fields| < 50 then |j.fields| else 50, i requires 0 <= i < |j.fields| => Scalar(j.fields[i].key))
  }

  function KeysOnly(j: Json): Json {
    Object([Field("\"keys\"", Array(KeyList(j))), Field("\"truncated\"", TRUE)])
  }

  /** At most fifty keys are kept, the first ones, in order; of anything but an object none. */
  lemma KeyListMeaning(j: Json)
    ensures !j.Object? ==> KeyList(j) == []
    ensures j.Object? ==>
      && |KeyList(j)| == (if |j.fields| < 50 then |j.fields| else 50)
      && forall i | 0 <= i < |KeyList(j)| :: KeyList(j)[i] == Scalar(j.fields[i].key)
  {
  }

  const BARE: Json := Object([Field("\"truncated\"", TRUE)])

  /** What a degraded part says: that it was truncated, and what is left of it. */
  lemma DegradedParts(j: Json, name: Json, role: Json)
    ensures Render(BARE) == "{\"truncated\": true}"
    ensures KeysOnly(j) == Object([Field("\"keys\"", Array(KeyList(j))), Field("\"truncated\"", Scalar("true"))])
    ensures SkillJson(SkillStub(name, role)) ==
      Object([Field("\"name\"", name), Field("\"role\"", role), Field("\"truncated\"", Scalar("true"))])
  {
    assert BARE.fields == [Field("\"truncated\"", TRUE)];
    assert RenderFields(BARE.fields) == "\"truncated\": true";
  }

  function References(p: Packet): seq<Json> {
    if p.skill.FullSkill? then p.skill.references else []
  }

  function WithCards(p: Packet, n: nat): Packet
    requires n <= |p.cards|
  {
    p.(cards := p.cards[..n])
  }

  function WithReferences(p: Packet, n: nat): Packet
    requires n <= |References(p)|
  {
    var bare := p.(cards := []);
    if p.skill.FullSkill? then bare.(skill := p.skill.(references := p.skill.references[..n])) else bare
  }

  function WithStub(p: Packet): Packet {
    var bare := p.(cards := []);
    if p.skill.FullSkill? then bare.(skill := SkillStub(p.skill.name, p.skill.role))
    else bare
  }

  function WithPayload(p: Packet, payload: Json): Packet {
    if p.event.Some? then WithStub(p).(event := Some(p.event.value.(payload := payload))) else WithStub(p)
  }

  function PayloadOf(p: Packet): Json {
    if p.event.Some? then p.event.value.payload else BARE
  }

  function WithVerification(p: Packet): Packet {
    var q := WithPayload(p, BARE);
    if p.candidate.None? then q
    else q.(candidate := Some(p.candidate.value.(verification := KeysOnly(p.candidate.value.verification))))
  }

  function WithHypothesis(p: Packet): Packet {
    var q := WithVerification(p);
    if p.candidate.None? then q
    else q.(candidate := Some(q.candidate.value.(hypothesis := KeysOnly(p.candidate.value.hypothesis))))
  }

  /** How many rungs the ladder has below the whole packet. */
  function Rungs(p: Packet): nat {
    |p.cards| + |References(p)| + 5
  }

  /** The packet after n degradations: cards from the end, references from the end, then part by part. */
  function Level(p: Packet, n: nat): Packet
    requires n <= Rungs(p)
  {
    var c, r := |p.cards|, |References(p)|;
    if n <= c then WithCards(p, c - n)
    else if n <= c + r then WithReferences(p, r - (n - c))
    else if n == c + r + 1 then WithStub(p)
    else if n == c + r + 2 then WithPayload(p, KeysOnly(PayloadOf(p)))
    else if n == c + r + 3 then WithPayload(p, BARE)
    else if n == c + r + 4 then WithVerification(p)
    else WithHypothesis(p)
  }

  function DropSkill(p: Packet): Packet {
    if p.skill.FullSkill? then p.(skill := SkillStub(p.skill.name, p.skill.role)) else p
  }

  function KeysOfPayload(p: Packet): Packet {
    if p.event.Some? then p.(event := Some(p.event.value.(payload := KeysOnly(p.event.value.payload)))) else p
  }

  function DropPayload(p: Packet): Packet {
    if p.event.Some? then p.(event := Some(p.event.value.(payload := BARE))) else p
  }

  function KeysOfVerification(p: Packet): Packet {
    if p.candidate.Some?
    then p.(candidate := Some(p.candidate.value.(verification := KeysOnly(p.candidate.value.verification)))) else p
  }

  function KeysOfHypothesis(p: Packet): Packet {
    if p.candidate.Some?
    then p.(candidate := Some(p.candidate.value.(hypothesis := KeysOnly(p.candidate.value.hypothesis)))) else p
  }

  /** The last five rungs, each obtained from the one above it. */
  lemma LadderSteps(p: Packet)
    ensures var base := |p.cards| + |References(p)|;
      && Level(p, base + 1) == DropSkill(Level(p, base))
      && Level(p, base + 2) == KeysOfPayload(Level(p, base + 1))
      && Level(p, base + 3) == DropPayload(Level(p, base + 2))
      && Level(p, base + 4) == KeysOfVerification(Level(p, base + 3))
      && Level(p, base + 5) == KeysOfHypothesis(Level(p, base + 4))
  {
    assert p.cards[..0] == [];
  }

  /** n is the first rung of p that fits. */
  ghost predicate FirstFit(p: Packet, limit: nat, n: nat) {
    && n <= Rungs(p)
    && PacketSize(Level(p, n)) <= limit
    && NoneBefore(p, limit, n)
  }

  ghost predicate NoneBefore(p: Packet, limit: nat, n: nat)
    requires n <= Rungs(p) + 1
  {
    forall m: nat | m < n :: PacketSize(Level(p, m)) > limit
  }

  // ---------------------------------------------------------------- the fitter, in place

  class PacketBuffer {
    var packet: Packet

    constructor (p: Packet)
      ensures packet == p
    {
      packet := p;
    }

    method PopCards(limit: nat) returns (n: nat)
      modifies this
      ensures n <= |old(packet).cards|
      ensures packet == Level(old(packet), n)
      ensures NoneBefore(old(packet), limit, n)
      ensures PacketSize(packet) <= limit || n == |old(packet).cards|
    {
      ghost var p := packet;
      n := 0;
      assert p.cards[..|p.cards|] == p.cards;
      while packet.cards != [] && PacketSize(packet) > limit
        invariant n + |packet.cards| == |p.cards|
        invariant packet == Level(p, n)
        invariant NoneBefore(p, limit, n)
      {
        assert p.cards[..|packet.cards|][..|packet.cards| - 1] == p.cards[..|packet.cards| - 1];
        packet := packet.(cards := packet.cards[..|packet.cards| - 1]);
        n := n + 1;
      }
    }

    /** p is the packet as it came in; its cards are gone by now. */
    method PopReferences(limit: nat, ghost p: Packet) returns (n: nat)
      requires packet == Level(p, |p.cards|) && NoneBefore(p, limit, |p.cards|)
      modifies this
      ensures n <= |References(p)|
      ensures packet == Level(p, |p.cards| + n)
      ensures NoneBefore(p, limit, |p.cards| + n)
      ensures PacketSize(packet) <= limit || n == |References(p)|
    {
      n := 0;
      assert packet == WithReferences(p, |References(p)|) by {
        assert References(p)[..|References(p)|] == References(p);
        assert p.cards[..0] == [];
      }
      while packet.skill.FullSkill? && packet.skill.references != [] && PacketSize(packet) > limit
        invariant n <= |References(p)|
        invariant packet == WithReferences(p, |References(p)| - n)
        invariant packet == Level(p, |p.cards| + n)
        invariant NoneBefore(p, limit, |p.cards| + n)
        decreases |References(p)| - n
      {
        var kept := |packet.skill.references| - 1;
        assert References(p)[..|References(p)| - n][..kept] == References(p)[..kept];
        packet := packet.(skill := packet.skill.(references := packet.skill.references[..kept]));
        n := n + 1;
      }
    }

    /** One conditional degradation: the packet is at rung n and goes to rung n + 1 unless it fits. */
    method Degrade(limit: nat, next: Packet, ghost p: Packet, ghost n: nat) returns (ghost rung: nat)
      requires n < Rungs(p) && packet == Level(p, n) && next == Level(p, n + 1) && NoneBefore(p, limit, n)
      modifies this
      ensures n <= rung <= n + 1
      ensures packet == Level(p, rung) && NoneBefore(p, limit, rung)
      ensures PacketSize(packet) <= limit || rung == n + 1
    {
      rung := n;
      if PacketSize(packet) > limit {
        packet := next;
        rung := n + 1;
      }
    }

    /** Returns true with the first rung that fits, or false (the ValueError) when no rung does. */
    method Fit(limit: nat) returns (ok: bool, ghost rung: nat)
      modifies this
      ensures ok ==> FirstFit(old(packet), limit, rung) && packet == Level(old(packet), rung)
      ensures !ok ==> NoneBefore(old(packet), limit, Rungs(old(packet)) + 1)
    {
      ghost var p := packet;
      ghost var base := |p.cards| + |References(p)|;
      rung := PopCards(limit);
      if packet.cards != [] {
        return true, rung;
      }
      ghost var dropped := PopReferences(limit, p);
      rung := rung + dropped;
      if packet.skill.FullSkill? && packet.skill.references != [] {
        return true, rung;
      }
      LadderSteps(p);
      rung := Degrade(limit, DropSkill(packet), p, base);
      if PacketSize(packet) <= limit { return true, rung; }
      rung := Degrade(limit, KeysOfPayload(packet), p, base + 1);
      if PacketSize(packet) <= limit { return true, rung; }
      rung := Degrade(limit, DropPayload(packet), p, base + 2);
      if PacketSize(packet) <= limit { return true, rung; }
      rung := Degrade(limit, KeysOfVerification(packet), p, base + 3);
      if PacketSize(packet) <= limit { return true, rung; }
      rung := Degrade(limit, KeysOfHypothesis(packet), p, base + 4);
      ok := PacketSize(packet) <= limit;
    }
  }
}
