/** The team page's data rule: members are shown in two tiers, partners
    and leads, selected by their `type`. */
module Team {
  import opened Lists

  /** One team member; `kind` is the member's `type` tag. */
  datatype Member = Member(name: string, role: string, expertise: string, bio: string, kind: string)

  const Partner: string := "partner"
  const Lead: string := "lead"

  /** The page's fixed list of members. */
  const TeamMembers: seq<Member> := [
    Member("Adrian Vane", "Founding Partner", "Investment Strategy, Market Entry, 2x Exits",
           "The architect of our extreme-growth philosophy. Focuses on thesis generation and macro-economic forecasting.",
           Partner),
    Member("Dr. Lena Voss", "Managing Partner", "DeepTech, Quantum, IP Monetization",
           "Holds 15 patents in quantum computing. Drives our technical due diligence and R&D partnerships.",
           Partner),
    Member("Marco Diaz", "Investment Lead, FinTech", "Blockchain, HFT, Capital Structuring",
           "Former Wall Street veteran. Specializes in structuring complex, high-leverage funding rounds.",
           Lead),
    Member("Chloe Park", "Investment Lead, BioTech", "Genomics, Drug Discovery, Clinical Trials",
           "Focuses on maximizing the synergy and psychological support for our portfolio founders.",
           Lead),
    Member("Samir Kahan", "Head of Operations", "Operational Scaling, Efficiency Audits",
           "Ensures portfolio companies achieve flawless operational execution during hyper-growth phases.",
           Lead)
  ]

  predicate IsPartner(m: Member) { m.kind == Partner }

  predicate IsLead(m: Member) { m.kind == Lead }

  /** The partner tier: every member of type 'partner', in list order. */
  function Partners(ms: seq<Member>): (r: seq<Member>)
    ensures forall m :: m in r <==> m in ms && m.kind == Partner
  {
    FilterMembers(ms, IsPartner);
    Filter(ms, IsPartner)
  }

  /** The lead tier: every member of type 'lead', in list order. */
  function Leads(ms: seq<Member>): (r: seq<Member>)
    ensures forall m :: m in r <==> m in ms && m.kind == Lead
  {
    FilterMembers(ms, IsLead);
    Filter(ms, IsLead)
  }

  /** Both tiers keep the relative order of the members they keep. */
  lemma TiersAppend(a: seq<Member>, b: seq<Member>)
    ensures Partners(a + b) == Partners(a) + Partners(b)
    ensures Leads(a + b) == Leads(a) + Leads(b)
  {
    FilterAppend(a, b, IsPartner);
    FilterAppend(a, b, IsLead);
  }

  /** No member is shown in both tiers. */
  lemma TiersDisjoint(ms: seq<Member>)
    ensures forall i :: 0 <= i < |Partners(ms)| ==> Partners(ms)[i] !in Leads(ms)
  {
  }

  /** A member of any other type is shown in neither tier. */
  lemma OtherKindHidden(ms: seq<Member>, m: Member)
    requires m.kind != Partner && m.kind != Lead
    ensures m !in Partners(ms) && m !in Leads(ms)
  {
  }

  /** When every member is a partner or a lead, the two tiers together
      show each member exactly as often as the list holds it. */
  lemma TiersCover(ms: seq<Member>)
    requires forall i :: 0 <= i < |ms| ==> ms[i].kind == Partner || ms[i].kind == Lead
    ensures |Partners(ms)| + |Leads(ms)| == |ms|
  {
    FilterSplitCount(ms, IsPartner, IsLead);
  }

  function Names(ms: seq<Member>): (r: seq<string>)
    ensures |r| == |ms| && forall i :: 0 <= i < |ms| ==> r[i] == ms[i].name
  {
    if ms == [] then [] else [ms[0].name] + Names(ms[1..])
  }

  /** On the page's own list the first two members are the partners and
      the last three the leads. */
  lemma TeamTiers()
    ensures Partners(TeamMembers) == TeamMembers[..2]
    ensures Leads(TeamMembers) == TeamMembers[2..]
  {
    var ms := TeamMembers;
    var front, back := ms[..2], ms[2..];
    assert ms == front + back;
    assert forall i :: 0 <= i < |front| ==> IsPartner(front[i]) && !IsLead(front[i]);
    assert forall i :: 0 <= i < |back| ==> IsLead(back[i]) && !IsPartner(back[i]);
    TiersAppend(front, back);
    FilterAll(front, IsPartner);
    FilterNone(back, IsPartner);
    FilterAll(back, IsLead);
    FilterNone(front, IsLead);
  }

  /** On the page's own list: two partners and three leads, covering all
      five members. */
  lemma TeamSplit()
    ensures Names(Partners(TeamMembers)) == ["Adrian Vane", "Dr. Lena Voss"]
    ensures Names(Leads(TeamMembers)) == ["Marco Diaz", "Chloe Park", "Samir Kahan"]
    ensures |Partners(TeamMembers)| + |Leads(TeamMembers)| == |TeamMembers|
  {
    TeamTiers();
  }
}
