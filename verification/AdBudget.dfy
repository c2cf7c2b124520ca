/** Advertising campaigns: the status machine, what an interaction costs, and how the budget is spent. */
module AdBudget {
  import opened Keyspace

  datatype Uuid = Uuid(value: nat)
  datatype Status = PENDING | ACTIVE | PAUSED | REJECTED | COMPLETED
  datatype BidType = CPC | CPM | OtherBid(name: string)
  datatype Kind = CLICK | VIEW | OtherKind(name: string)

  datatype Campaign = Campaign(owner: string, total: real, spent: real, bidType: BidType, bid: real, status: Status)
  datatype Interaction = Interaction(campaign: Uuid, kind: Kind, cost: real, ip: string, at: int)

  /** The parts of the anti-fraud key; the campaign is named as the request spells it. */
  datatype FraudKey = FraudKey(ip: string, campaignText: string, kind: Kind)

  datatype State = State(campaigns: map<Uuid, Campaign>, fraud: map<FraudKey, Entry<string>>, log: seq<Interaction>)

  const FRAUD_TTL := 5 * MINUTE
  const EMPTY := State(map[], map[], [])

  datatype Event =
    | Create(id: Uuid, owner: string, total: real, bidType: BidType, bid: real, start: int, end: int)
    | Toggle(text: string, caller: string, role: string, target: Option<Status>)
    | Approve(text: string)
    | Reject(text: string)
    | Log(now: int, text: string, kind: Kind, ip: string)

  datatype Reply =
    | Ok | InvalidRequestBody | EndDateBeforeStartDate | CampaignNotFound | ForbiddenCampaignOwnership
    | CannotUpdateStatusOfUnapprovedCampaign | InvalidTargetStatus | CampaignNotInPendingStatus | CampaignNotActive
    | Logged(cost: real, isDuplicate: bool)

  /** How the database reads a campaign id: many texts can name one campaign. */
  type Parser = string -> Option<Uuid>

  // ---------------------------------------------------------------- one step

  function Find(p: Parser, s: State, text: string): Option<Uuid> {
    if p(text).Some? && p(text).value in s.campaigns then p(text) else None
  }

  /** What one counted interaction of this kind costs. */
  function Price(c: Campaign, kind: Kind): real {
    if kind == CLICK && c.bidType == CPC then c.bid
    else if kind == VIEW && c.bidType == CPM then c.bid / 1000.0
    else 0.0
  }

  function SetStatus(s: State, id: Uuid, status: Status): State
    requires id in s.campaigns
  {
    s.(campaigns := s.campaigns[id := s.campaigns[id].(status := status)])
  }

  /** The transaction: append the row, charge the budget, complete the campaign when the budget is used up. */
  function Record(s: State, i: Interaction): State
    requires i.campaign in s.campaigns
  {
    var c := s.campaigns[i.campaign];
    var charged := if i.cost > 0.0 then c.(spent := c.spent + i.cost) else c;
    var closed := if i.cost > 0.0 && charged.spent >= charged.total then charged.(status := COMPLETED) else charged;
    s.(campaigns := s.campaigns[i.campaign := closed], log := s.log + [i])
  }

  function Step(p: Parser, s: State, e: Event): (State, Reply) {
    match e
    case Create(id, owner, total, bidType, bid, start, end) =>
      if !(total > 0.0 && bid > 0.0) then (s, InvalidRequestBody)
      else if end < start then (s, EndDateBeforeStartDate)
      else (s.(campaigns := s.campaigns[id := Campaign(owner, total, 0.0, bidType, bid, PENDING)]), Ok)
    case Toggle(text, caller, role, target) =>
      var id := Find(p, s, text);
      if id.None? then (s, CampaignNotFound)
      else if s.campaigns[id.value].owner != caller && role != "ADMIN" then (s, ForbiddenCampaignOwnership)
      else if s.campaigns[id.value].status !in {ACTIVE, PAUSED} then (s, CannotUpdateStatusOfUnapprovedCampaign)
      else if target !in {Some(ACTIVE), Some(PAUSED)} then (s, InvalidTargetStatus)
      else (SetStatus(s, id.value, target.value), Ok)
    case Approve(text) => Decide(p, s, text, ACTIVE)
    case Reject(text) => Decide(p, s, text, REJECTED)
    case Log(now, text, kind, ip) =>
      var id := Find(p, s, text);
      if id.None? then (s, CampaignNotFound)
      else if s.campaigns[id.value].status != ACTIVE then (s, CampaignNotActive)
      else
        var key := FraudKey(ip, text, kind);
        var duplicate := Live(s.fraud, key, now);
        var cost := if duplicate then 0.0 else Price(s.campaigns[id.value], kind);
        var t := if duplicate then s else s.(fraud := SetFor(s.fraud, key, "1", now, FRAUD_TTL));
        (Record(t, Interaction(id.value, kind, cost, ip, now)), Logged(cost, duplicate))
  }

  function Decide(p: Parser, s: State, text: string, status: Status): (State, Reply) {
    var id := Find(p, s, text);
    if id.None? then (s, CampaignNotFound)
    else if s.campaigns[id.value].status != PENDING then (s, CampaignNotInPendingStatus)
    else (SetStatus(s, id.value, status), Ok)
  }

  /** A new campaign gets an id that no campaign has. */
  predicate Enabled(s: State, e: Event) { e.Create? ==> e.id !in s.campaigns }

  /** One campaign has spent that much more, and is completed by it if that uses up its budget; nothing else changes. */
  ghost predicate Charges(before: map<Uuid, Campaign>, after: map<Uuid, Campaign>, id: Uuid, cost: real) {
    && id in before && after.Keys == before.Keys && (forall other <- before :: other != id ==> after[other] == before[other])
    && var c := before[id];
       && (cost <= 0.0 ==> after[id] == c)
       && (cost > 0.0 && c.spent + cost < c.total ==> after[id] == c.(spent := c.spent + cost))
       && (cost > 0.0 && c.spent + cost >= c.total ==> after[id] == c.(spent := c.spent + cost, status := COMPLETED))
  }

  // ---------------------------------------------------------------- the service

  class Ads {
    const parse: Parser
    var campaigns: map<Uuid, Campaign>
    var fraud: map<FraudKey, Entry<string>>
    var interactions: seq<Interaction>

    constructor (parse: Parser)
      ensures this.parse == parse && View() == EMPTY
    {
      this.parse := parse;
      campaigns, fraud, interactions := map[], map[], [];
    }

    ghost function View(): State reads this { State(campaigns, fraud, interactions) }

    /** The campaign that the text names. */
    ghost function Named(text: string): Option<Campaign> reads this {
      if parse(text).Some? && parse(text).value in campaigns then Some(campaigns[parse(text).value]) else None
    }

    method GetAdCampaignByID(text: string) returns (id: Option<Uuid>)
      ensures id == Find(parse, View(), text)
      ensures id.Some? ==> id.value in campaigns
    {
      id := parse(text);
      if id.Some? && id.value !in campaigns { id := None; }
    }

    method CreateAdCampaign(id: Uuid, owner: string, total: real, bidType: BidType, bid: real, start: int, end: int)
      returns (reply: Reply)
      requires id !in campaigns
      modifies this`campaigns
      ensures (View(), reply) == Step(parse, old(View()), Create(id, owner, total, bidType, bid, start, end))
      ensures reply == InvalidRequestBody <==> total <= 0.0 || bid <= 0.0
      ensures reply == EndDateBeforeStartDate <==> total > 0.0 && bid > 0.0 && end < start
      ensures reply == Ok <==> total > 0.0 && bid > 0.0 && start <= end
      ensures reply != Ok ==> unchanged(this)
      ensures reply == Ok ==> campaigns == old(campaigns)[id := Campaign(owner, total, 0.0, bidType, bid, PENDING)]
    {
      if total <= 0.0 || bid <= 0.0 { return InvalidRequestBody; }
      if end < start { return EndDateBeforeStartDate; }
      campaigns := campaigns[id := Campaign(owner, total, 0.0, bidType, bid, PENDING)];
      return Ok;
    }

    method UpdateAdCampaignStatus(text: string, caller: string, role: string, target: Option<Status>) returns (reply: Reply)
      modifies this`campaigns
      ensures (View(), reply) == Step(parse, old(View()), Toggle(text, caller, role, target))
      ensures reply == CampaignNotFound <==> old(Named(text)).None?
      ensures old(Named(text)).Some? ==>
                var c := old(Named(text)).value;
                var mine, approved := c.owner == caller || role == "ADMIN", c.status == ACTIVE || c.status == PAUSED;
                var allowed := target == Some(ACTIVE) || target == Some(PAUSED);
                && (reply == ForbiddenCampaignOwnership <==> !mine)
                && (reply == CannotUpdateStatusOfUnapprovedCampaign <==> mine && !approved)
                && (reply == InvalidTargetStatus <==> mine && approved && !allowed)
                && (reply == Ok <==> mine && approved && allowed)
                && (reply == Ok ==> campaigns == old(campaigns)[parse(text).value := c.(status := target.value)])
      ensures reply != Ok ==> unchanged(this)
    {
      var id := GetAdCampaignByID(text);
      if id.None? { return CampaignNotFound; }
      var campaign := campaigns[id.value];
      if campaign.owner != caller && role != "ADMIN" { return ForbiddenCampaignOwnership; }
      if campaign.status != ACTIVE && campaign.status != PAUSED { return CannotUpdateStatusOfUnapprovedCampaign; }
      if target != Some(ACTIVE) && target != Some(PAUSED) { return InvalidTargetStatus; }
      campaigns := campaigns[id.value := campaign.(status := target.value)];
      return Ok;
    }

    method ApproveAdCampaign(text: string) returns (reply: Reply)
      modifies this`campaigns
      ensures (View(), reply) == Step(parse, old(View()), Approve(text))
      ensures reply == CampaignNotFound <==> old(Named(text)).None?
      ensures old(Named(text)).Some? ==>
                var c := old(Named(text)).value;
                && (reply == CampaignNotInPendingStatus <==> c.status != PENDING) && (reply == Ok <==> c.status == PENDING)
                && (reply == Ok ==> campaigns == old(campaigns)[parse(text).value := c.(status := ACTIVE)])
      ensures reply != Ok ==> unchanged(this)
    {
      var id := GetAdCampaignByID(text);
      if id.None? { return CampaignNotFound; }
      if campaigns[id.value].status != PENDING { return CampaignNotInPendingStatus; }
      campaigns := campaigns[id.value := campaigns[id.value].(status := ACTIVE)];
      return Ok;
    }

    method RejectAdCampaign(text: string) returns (reply: Reply)
      modifies this`campaigns
      ensures (View(), reply) == Step(parse, old(View()), Reject(text))
      ensures reply == CampaignNotFound <==> old(Named(text)).None?
      ensures old(Named(text)).Some? ==>
                var c := old(Named(text)).value;
                && (reply == CampaignNotInPendingStatus <==> c.status != PENDING) && (reply == Ok <==> c.status == PENDING)
                && (reply == Ok ==> campaigns == old(campaigns)[parse(text).value := c.(status := REJECTED)])
      ensures reply != Ok ==> unchanged(this)
    {
      var id := GetAdCampaignByID(text);
      if id.None? { return CampaignNotFound; }
      if campaigns[id.value].status != PENDING { return CampaignNotInPendingStatus; }
      campaigns := campaigns[id.value := campaigns[id.value].(status := REJECTED)];
      return Ok;
    }

    method RecordInteraction(i: Interaction)
      requires i.campaign in campaigns
      modifies this`campaigns, this`interactions
      ensures View() == Record(old(View()), i)
      ensures interactions == old(interactions) + [i]
      ensures Charges(old(campaigns), campaigns, i.campaign, i.cost)
    {
      interactions := interactions + [i];
      var c := campaigns[i.campaign];
      if i.cost > 0.0 {
        c := c.(spent := c.spent + i.cost);
        campaigns := campaigns[i.campaign := c];
        if c.spent >= c.total {
          campaigns := campaigns[i.campaign := c.(status := COMPLETED)];
        }
      }
      assert campaigns == Record(old(View()), i).campaigns;
    }

    method LogAdInteraction(now: int, text: string, kind: Kind, ip: string) returns (reply: Reply)
      modifies this
      ensures (View(), reply) == Step(parse, old(View()), Log(now, text, kind, ip))
      ensures reply == CampaignNotFound <==> old(Named(text)).None?
      ensures reply == CampaignNotActive <==> old(Named(text)).Some? && old(Named(text)).value.status != ACTIVE
      ensures reply.Logged? <==> old(Named(text)).Some? && old(Named(text)).value.status == ACTIVE
      ensures !reply.Logged? ==> unchanged(this)
      ensures reply.Logged? ==>
                var c, key := old(Named(text)).value, FraudKey(ip, text, kind);
                && reply.isDuplicate == Live(old(fraud), key, now)
                && (reply.isDuplicate ==> reply.cost == 0.0 && fraud == old(fraud))
                && (!reply.isDuplicate ==> fraud == old(fraud)[key := Entry("1", Some(now + 300_000_000_000))])
                && (!reply.isDuplicate && kind == CLICK && c.bidType == CPC ==> reply.cost == c.bid)
                && (!reply.isDuplicate && kind == VIEW && c.bidType == CPM ==> reply.cost == c.bid / 1000.0)
                && (!(kind == CLICK && c.bidType == CPC) && !(kind == VIEW && c.bidType == CPM) ==> reply.cost == 0.0)
                && interactions == old(interactions) + [Interaction(parse(text).value, kind, reply.cost, ip, now)]
                && Charges(old(campaigns), campaigns, parse(text).value, reply.cost)
    {
      var id := GetAdCampaignByID(text);
      if id.None? { return CampaignNotFound; }
      var campaign := campaigns[id.value];
      if campaign.status != ACTIVE { return CampaignNotActive; }
      var key := FraudKey(ip, text, kind);
      var isDuplicate := false;
      if Live(fraud, key, now) {
        isDuplicate := true;
      } else {
        fraud := SetFor(fraud, key, "1", now, FRAUD_TTL);
      }
      var cost := 0.0;
      if !isDuplicate {
        if kind == CLICK && campaign.bidType == CPC {
          cost := campaign.bid;
        } else if kind == VIEW && campaign.bidType == CPM {
          cost := campaign.bid / 1000.0;
        }
      }
      RecordInteraction(Interaction(id.value, kind, cost, ip, now));
      return Logged(cost, isDuplicate);
    }
  }

  // ---------------------------------------------------------------- accounting and status

  function CostOf(log: seq<Interaction>, id: Uuid): real {
    if log == [] then 0.0
    else CostOf(log[..|log| - 1], id) + if log[|log| - 1].campaign == id then log[|log| - 1].cost else 0.0
  }

  /** The most that one interaction can cost this campaign. */
  function TopPrice(c: Campaign): real {
    match c.bidType
    case CPC => c.bid
    case CPM => c.bid / 1000.0
    case OtherBid(_) => 0.0
  }

  /** What holds of a campaign in each status. */
  predicate BudgetOk(c: Campaign) {
    && c.total > 0.0 && c.bid > 0.0 && c.spent >= 0.0
    && match c.status
       case PENDING => c.spent == 0.0
       case REJECTED => c.spent == 0.0
       case ACTIVE => c.spent < c.total
       case PAUSED => c.spent < c.total
       case COMPLETED => c.total <= c.spent < c.total + TopPrice(c)
  }

  ghost predicate CampaignOk(s: State, id: Uuid) {
    CostOf(s.log, id) == (if id in s.campaigns then s.campaigns[id].spent else 0.0)
    && (id in s.campaigns ==> BudgetOk(s.campaigns[id]))
  }

  ghost predicate Inv(s: State) { forall id :: CampaignOk(s, id) }

  lemma RecordKeepsInv(s: State, i: Interaction)
    requires Inv(s) && i.campaign in s.campaigns && s.campaigns[i.campaign].status == ACTIVE
    requires i.cost == 0.0 || i.cost == Price(s.campaigns[i.campaign], i.kind)
    ensures Inv(Record(s, i))
  {
    var t := Record(s, i);
    assert t.log[..|t.log| - 1] == s.log;
    forall id ensures CampaignOk(t, id) { assert CampaignOk(s, id); }
  }

  lemma StatusKeepsInv(s: State, id: Uuid, status: Status)
    requires Inv(s) && id in s.campaigns && BudgetOk(s.campaigns[id].(status := status))
    ensures Inv(SetStatus(s, id, status))
  {
    forall i ensures CampaignOk(SetStatus(s, id, status), i) { assert CampaignOk(s, i); }
  }

  lemma CreateKeepsInv(s: State, id: Uuid, c: Campaign)
    requires Inv(s) && id !in s.campaigns && BudgetOk(c) && c.spent == 0.0
    ensures Inv(s.(campaigns := s.campaigns[id := c]))
  {
    var t := s.(campaigns := s.campaigns[id := c]);
    forall i ensures CampaignOk(t, i) { assert CampaignOk(s, i); }
  }

  lemma FraudKeepsInv(s: State, fraud: map<FraudKey, Entry<string>>)
    requires Inv(s)
    ensures Inv(s.(fraud := fraud))
  {
    forall i ensures CampaignOk(s.(fraud := fraud), i) { assert CampaignOk(s, i); }
  }

  lemma StepKeepsInv(p: Parser, s: State, e: Event)
    requires Inv(s) && Enabled(s, e)
    ensures Inv(Step(p, s, e).0)
  {
    match e
    case Create(id, owner, total, bidType, bid, _, _) =>
      if total > 0.0 && bid > 0.0 { CreateKeepsInv(s, id, Campaign(owner, total, 0.0, bidType, bid, PENDING)); }
    case Toggle(text, _, _, target) =>
      if Step(p, s, e).1 == Ok {
        assert CampaignOk(s, p(text).value);
        StatusKeepsInv(s, p(text).value, target.value);
      }
    case Approve(text) => DecideKeepsInv(p, s, text, ACTIVE);
    case Reject(text) => DecideKeepsInv(p, s, text, REJECTED);
    case Log(now, text, kind, ip) =>
      if Step(p, s, e).1.Logged? {
        var t := s.(fraud := Step(p, s, e).0.fraud);
        FraudKeepsInv(s, t.fraud);
        RecordKeepsInv(t, Interaction(p(text).value, kind, Step(p, s, e).1.cost, ip, now));
      }
  }

  lemma DecideKeepsInv(p: Parser, s: State, text: string, status: Status)
    requires Inv(s) && status in {ACTIVE, REJECTED}
    ensures Inv(Decide(p, s, text, status).0)
  {
    if Decide(p, s, text, status).1 == Ok {
      assert CampaignOk(s, p(text).value);
      StatusKeepsInv(s, p(text).value, status);
    }
  }

  // ---------------------------------------------------------------- whole runs

  function Run(p: Parser, s: State, events: seq<Event>): State {
    if events == [] then s else Step(p, Run(p, s, events[..|events| - 1]), events[|events| - 1]).0
  }

  predicate Possible(p: Parser, s: State, events: seq<Event>) {
    events == [] ||
    (Possible(p, s, events[..|events| - 1]) && Enabled(Run(p, s, events[..|events| - 1]), events[|events| - 1]))
  }

  lemma {:induction false} RunKeepsInv(p: Parser, events: seq<Event>)
    requires Possible(p, EMPTY, events)
    ensures Inv(Run(p, EMPTY, events))
    decreases |events|
  {
    if events == [] {
      forall id ensures CampaignOk(EMPTY, id) {}
    } else {
      RunKeepsInv(p, events[..|events| - 1]);
      StepKeepsInv(p, Run(p, EMPTY, events[..|events| - 1]), events[|events| - 1]);
    }
  }

  /** After any run a campaign has spent exactly what its logged interactions cost, is open only below its budget,
      and ends less than one interaction above it. */
  lemma BudgetIsKept(p: Parser, events: seq<Event>, id: Uuid)
    requires Possible(p, EMPTY, events) && id in Run(p, EMPTY, events).campaigns
    ensures var s, c := Run(p, EMPTY, events), Run(p, EMPTY, events).campaigns[id];
            && c.spent == CostOf(s.log, id)
            && (c.status in {ACTIVE, PAUSED} ==> c.spent < c.total)
            && (c.status == COMPLETED ==> c.total <= c.spent)
            && c.spent < c.total + c.bid
  {
    RunKeepsInv(p, events);
    assert CampaignOk(Run(p, EMPTY, events), id);
  }

  predicate Closed(s: State, id: Uuid) { id in s.campaigns && s.campaigns[id].status in {REJECTED, COMPLETED} }

  /** A rejected or completed campaign never changes again, whatever follows. */
  lemma {:induction false} ClosedIsTerminal(p: Parser, s: State, events: seq<Event>, id: Uuid)
    requires Possible(p, s, events) && Closed(s, id)
    ensures id in Run(p, s, events).campaigns && Run(p, s, events).campaigns[id] == s.campaigns[id]
    decreases |events|
  {
    if events != [] {
      var before := events[..|events| - 1];
      ClosedIsTerminal(p, s, before, id);
      ClosedStep(p, Run(p, s, before), events[|events| - 1], id);
    }
  }

  lemma ClosedStep(p: Parser, s: State, e: Event, id: Uuid)
    requires Enabled(s, e) && Closed(s, id)
    ensures id in Step(p, s, e).0.campaigns && Step(p, s, e).0.campaigns[id] == s.campaigns[id]
  {
  }

  /** A campaign that charges has been approved and was never rejected. */
  lemma OnlyActiveCampaignsAreCharged(p: Parser, s: State, e: Event, id: Uuid)
    requires Inv(s) && Enabled(s, e) && id in s.campaigns
    ensures id in Step(p, s, e).0.campaigns
    ensures var c, d := s.campaigns[id], Step(p, s, e).0.campaigns[id];
            && d.spent >= c.spent
            && (d.spent > c.spent ==> c.status == ACTIVE && d.spent == c.spent + TopPrice(c) && e.Log?)
            && (d.status == COMPLETED && c.status != COMPLETED ==> d.spent > c.spent)
  {
    assert CampaignOk(s, id);
  }

  // ---------------------------------------------------------------- anti-fraud

  predicate Charged(p: Parser, s: State, e: Event) { e.Log? && Step(p, s, e).1.Logged? && Step(p, s, e).1.cost > 0.0 }

  function KeyOf(e: Event): FraudKey
    requires e.Log?
  {
    FraudKey(e.ip, e.text, e.kind)
  }

  predicate Blocked(s: State, k: FraudKey, until: int) {
    k in s.fraud && s.fraud[k].expires.Some? && until <= s.fraud[k].expires.value
  }

  /** After a charge its key stays blocked for five minutes: it is never removed and only ever extended. */
  lemma {:induction false} KeyOutlivesCharge(p: Parser, s: State, events: seq<Event>, i: nat)
    requires i < |events| && Charged(p, Run(p, s, events[..i]), events[i])
    ensures Blocked(Run(p, s, events), KeyOf(events[i]), events[i].now + FRAUD_TTL)
    decreases |events|
  {
    var before := events[..|events| - 1];
    if i < |before| {
      assert before[..i] == events[..i];
      KeyOutlivesCharge(p, s, before, i);
    } else {
      assert before == events[..i];
    }
  }

  /** Two charges for one address, one spelling of the campaign and one kind are at least five minutes apart. */
  lemma ChargesAreSpaced(p: Parser, s: State, events: seq<Event>, i: nat, j: nat)
    requires i < j < |events|
    requires Charged(p, Run(p, s, events[..i]), events[i]) && Charged(p, Run(p, s, events[..j]), events[j])
    requires KeyOf(events[i]) == KeyOf(events[j])
    ensures events[j].now >= events[i].now + FRAUD_TTL
  {
    assert events[..j][..i] == events[..i];
    KeyOutlivesCharge(p, s, events[..j], i);
  }

  /** A request is charged exactly when it names an active campaign, its key is not live, and the kind is the one the
      campaign pays for. */
  lemma ChargedExactly(p: Parser, s: State, e: Event)
    requires Inv(s) && e.Log?
    ensures Charged(p, s, e) <==>
              && p(e.text).Some? && p(e.text).value in s.campaigns && s.campaigns[p(e.text).value].status == ACTIVE
              && !Live(s.fraud, FraudKey(e.ip, e.text, e.kind), e.now)
              && (e.kind, s.campaigns[p(e.text).value].bidType) in {(CLICK, CPC), (VIEW, CPM)}
  {
    if Find(p, s, e.text).Some? { assert CampaignOk(s, p(e.text).value); }
  }

  predicate SameTerms(c: Campaign, d: Campaign) {
    d.owner == c.owner && d.total == c.total && d.bidType == c.bidType && d.bid == c.bid
  }

  lemma TermsStep(p: Parser, s: State, e: Event, id: Uuid)
    requires Enabled(s, e) && id in s.campaigns
    ensures id in Step(p, s, e).0.campaigns && SameTerms(s.campaigns[id], Step(p, s, e).0.campaigns[id])
  {
  }

  /** What was agreed at creation never changes. */
  lemma {:induction false} TermsNeverChange(p: Parser, s: State, events: seq<Event>, id: Uuid)
    requires Possible(p, s, events) && id in s.campaigns
    ensures id in Run(p, s, events).campaigns && SameTerms(s.campaigns[id], Run(p, s, events).campaigns[id])
    decreases |events|
  {
    if events != [] {
      TermsNeverChange(p, s, events[..|events| - 1], id);
      TermsStep(p, Run(p, s, events[..|events| - 1]), events[|events| - 1], id);
    }
  }

  /** A logged interaction that cost something is of the kind its campaign pays for, and cost the agreed price. */
  predicate Priced(s: State, i: Interaction) {
    i.cost == 0.0 ||
    (i.campaign in s.campaigns &&
     var c := s.campaigns[i.campaign];
     (c.bidType == CPC && i.kind == CLICK && i.cost == c.bid) || (c.bidType == CPM && i.kind == VIEW && i.cost == c.bid / 1000.0))
  }

  lemma StepPrices(p: Parser, s: State, e: Event, i: Interaction)
    requires Enabled(s, e) && (i in s.log ==> Priced(s, i)) && i in Step(p, s, e).0.log
    ensures Priced(Step(p, s, e).0, i)
  {
    if i.campaign in s.campaigns { TermsStep(p, s, e, i.campaign); }
  }

  /** After every run the whole log is priced by what was agreed at creation. */
  lemma {:induction false} EveryChargeIsTheAgreedPrice(p: Parser, events: seq<Event>, i: Interaction)
    requires Possible(p, EMPTY, events) && i in Run(p, EMPTY, events).log
    ensures Priced(Run(p, EMPTY, events), i)
    decreases |events|
  {
    if events != [] {
      var s := Run(p, EMPTY, events[..|events| - 1]);
      if i in s.log { EveryChargeIsTheAgreedPrice(p, events[..|events| - 1], i); }
      StepPrices(p, s, events[|events| - 1], i);
    }
  }

  /** The promise is per campaign, the key is per spelling: within five minutes of a charge, the same interaction
      with the same still active campaign is charged again exactly when the request spells the campaign in a way
      that has not been blocked itself. */
  lemma ChargedAgainExactly(p: Parser, s: State, e: Event, events: seq<Event>, f: Event)
    requires Charged(p, s, e) && Possible(p, s, [e] + events)
    requires f.Log? && f.ip == e.ip && f.kind == e.kind && p(f.text) == p(e.text) && f.now < e.now + FRAUD_TTL
    requires var t := Run(p, s, [e] + events); p(e.text).value in t.campaigns && t.campaigns[p(e.text).value].status == ACTIVE
    ensures Charged(p, Run(p, s, [e] + events), f) <==> f.text != e.text && !Live(Run(p, s, [e] + events).fraud, KeyOf(f), f.now)
  {
    var run := [e] + events;
    assert run[..0] == [];
    KeyOutlivesCharge(p, s, run, 0);
    TermsNeverChange(p, s, run, p(e.text).value);
  }

  /** A run in which one visitor's single click is charged twice at the same instant. */
  lemma OneClickChargedTwice(p: Parser, id: Uuid, low: string, up: string)
    requires p(low) == p(up) == Some(id) && low != up
    ensures var s := Run(p, EMPTY, [Create(id, "owner", 10.0, CPC, 1.0, 0, 1), Approve(low), Log(0, low, CLICK, "ip")]);
            id in s.campaigns && s.campaigns[id].spent == 1.0 && Charged(p, s, Log(0, up, CLICK, "ip"))
  {
    var a, b, c := Create(id, "owner", 10.0, CPC, 1.0, 0, 1), Approve(low), Log(0, low, CLICK, "ip");
    assert [a, b, c][..2] == [a, b] && [a, b][..1] == [a] && [a][..0] == [];
    var one := Step(p, EMPTY, a).0;
    var two := Step(p, one, b).0;
    assert Run(p, EMPTY, [a]) == one;
    assert Run(p, EMPTY, [a, b]) == two;
  }
}
