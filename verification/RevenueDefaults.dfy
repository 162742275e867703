/** What the service pays when nothing is configured for an event: no
    stakeholders on record and no custom rules. */
module RevenueDefaults {
  import opened Wrappers
  import opened Money
  import opened Sorting
  import opened RevenueModels
  import opened Waterfall
  import opened RevenueSharing

  // ----- roles and rule names ------------------------------------------------------

  lemma PrefixHolds(text: string, part: string, c: char)
    requires part <= text && c in part
    ensures c in text
  {
    var i :| 0 <= i < |part| && part[i] == c;
    assert text[i] == c;
  }

  lemma {:induction false} NotContained(text: string, part: string, c: char)
    requires c in part && c !in text
    ensures !Contains(text, part)
  {
    if part <= text {
      PrefixHolds(text, part, c);
      assert false;
    }
    if text != "" { NotContained(text[1..], part, c); }
  }

  lemma {:induction false} WithoutSpaces(s: string, rest: string)
    requires ' ' !in s
    ensures RemoveSpaces(s + rest) == s + RemoveSpaces(rest)
  {
    if s == "" {
      assert s + rest == rest;
    } else {
      assert s[0] in s && (s + rest)[1..] == s[1..] + rest;
      WithoutSpaces(s[1..], rest);
      assert s == [s[0]] + s[1..];
    }
  }

  lemma LowerIs(s: string, lower: string)
    requires |s| == |lower|
    requires forall i :: 0 <= i < |s| ==> lower[i] == if 'A' <= s[i] <= 'Z' then (s[i] as int + 32) as char else s[i]
    ensures Lower(s) == lower
  {
  }

  /** A rule name of two words, as the role match sees it. */
  lemma TwoWords(lower: string, first: string, second: string)
    requires lower == first + [' '] + second
    requires ' ' !in first && ' ' !in second
    ensures RemoveSpaces(lower) == first + second
  {
    var rest := [' '] + second;
    assert lower == first + rest;
    WithoutSpaces(first, rest);
    assert rest[1..] == second;
    assert RemoveSpaces(rest) == RemoveSpaces(second);
    WithoutSpaces(second, []);
    assert second + [] == second;
  }

  lemma PlatformFeeName(name: string)
    requires name == "Platform Fee"
    ensures RemoveSpaces(Lower(name)) == "platform" + "fee"
  {
    LowerIs(name, "platform fee");
    TwoWords("platform fee", "platform", "fee");
  }

  lemma OrganizerShareName(name: string)
    requires name == "Organizer Share"
    ensures RemoveSpaces(Lower(name)) == "organizer" + "share"
  {
    LowerIs(name, "organizer share");
    TwoWords("organizer share", "organizer", "share");
  }

  lemma VenueFeeName(name: string)
    requires name == "Venue Fee"
    ensures RemoveSpaces(Lower(name)) == "venue" + "fee"
  {
    LowerIs(name, "venue fee");
    TwoWords("venue fee", "venue", "fee");
  }

  predicate Small(s: string) { forall i :: 0 <= i < |s| ==> !('A' <= s[i] <= 'Z') }

  lemma NamedAfter(s: Stakeholder, rule: RevenueRule, rest: string)
    requires Small(s.role) && RemoveSpaces(Lower(rule.name)) == s.role + rest
    ensures RoleMatches(s, rule)
  {
    LowerIs(s.role, s.role);
  }

  lemma NotNamedAfter(s: Stakeholder, rule: RevenueRule, c: char)
    requires Small(s.role) && rule.appliesTo == []
    requires c in s.role && c !in RemoveSpaces(Lower(rule.name))
    ensures !RoleMatches(s, rule)
  {
    LowerIs(s.role, s.role);
    NotContained(RemoveSpaces(Lower(rule.name)), s.role, c);
  }

  lemma PriorityOfThree(s: Stakeholder, a: RevenueRule, b: RevenueRule, c: RevenueRule)
    ensures Priority(s, [a, b, c])
         == if RoleMatches(s, a) then a.priority
            else if RoleMatches(s, b) then b.priority
            else if RoleMatches(s, c) then c.priority else LOWEST_PRIORITY
  {
    assert [a, b, c][1..] == [b, c] && [b, c][1..] == [c];
    assert Priority(s, [c]) == if RoleMatches(s, c) then c.priority else LOWEST_PRIORITY;
    assert Priority(s, [b, c]) == if RoleMatches(s, b) then b.priority else Priority(s, [c]);
  }

  lemma PlatformMatches(s: Stakeholder, a: RevenueRule)
    requires s.role == "platform" && a.name == "Platform Fee"
    ensures RoleMatches(s, a)
  {
    PlatformFeeName(a.name);
    NamedAfter(s, a, "fee");
  }

  lemma OrganizerMatches(s: Stakeholder, a: RevenueRule, b: RevenueRule)
    requires s.role == "organizer" && a.name == "Platform Fee" && b.name == "Organizer Share" && a.appliesTo == []
    ensures !RoleMatches(s, a) && RoleMatches(s, b)
  {
    PlatformFeeName(a.name);
    assert s.role[6] == 'z';
    NotNamedAfter(s, a, 'z');
    OrganizerShareName(b.name);
    NamedAfter(s, b, "share");
  }

  lemma VenueMatches(s: Stakeholder, c: RevenueRule)
    requires s.role == "venue" && c.name == "Venue Fee"
    ensures RoleMatches(s, c)
  {
    VenueFeeName(c.name);
    NamedAfter(s, c, "fee");
  }

  lemma VenueDiffers(s: Stakeholder, a: RevenueRule, b: RevenueRule)
    requires s.role == "venue" && a.name == "Platform Fee" && b.name == "Organizer Share"
    requires a.appliesTo == b.appliesTo == []
    ensures !RoleMatches(s, a) && !RoleMatches(s, b)
  {
    assert s.role[0] == 'v';
    PlatformFeeName(a.name);
    NotNamedAfter(s, a, 'v');
    OrganizerShareName(b.name);
    NotNamedAfter(s, b, 'v');
  }

  /** Each default stakeholder has the priority of the rule named after the role. */
  lemma DefaultPriorities(organizer: Stakeholder, platform: Stakeholder, venue: Stakeholder,
                          a: RevenueRule, b: RevenueRule, c: RevenueRule)
    requires organizer.role == "organizer" && platform.role == "platform" && venue.role == "venue"
    requires a.name == "Platform Fee" && b.name == "Organizer Share" && c.name == "Venue Fee"
    requires a.appliesTo == b.appliesTo == c.appliesTo == []
    ensures Priority(organizer, [a, b, c]) == b.priority
    ensures Priority(platform, [a, b, c]) == a.priority
    ensures Priority(venue, [a, b, c]) == c.priority
  {
    PlatformMatches(platform, a);
    OrganizerMatches(organizer, a, b);
    VenueMatches(venue, c);
    VenueDiffers(venue, a, b);
    PriorityOfThree(platform, a, b, c);
    PriorityOfThree(organizer, a, b, c);
    PriorityOfThree(venue, a, b, c);
  }

  lemma SortThree<T>(a: T, b: T, c: T, key: T -> real)
    requires key(b) < key(a) < key(c)
    ensures StableSort([a, b, c], key) == [b, a, c]
  {
    assert [c][1..] == [] && StableSort([c], key) == Insert(c, [], key) == [c];
    assert [b, c][1..] == [c] && StableSort([b, c], key) == Insert(b, [c], key) == [b] + [c];
    assert [b, c][0] == b && Insert(a, [b, c], key) == [b] + Insert(a, [c], key);
    assert Insert(a, [c], key) == [a] + [c];
    assert [a, b, c][1..] == [b, c] && StableSort([a, b, c], key) == Insert(a, [b, c], key);
  }

  /** The default rules name no roles, so the first of them takes everyone: every
      stakeholder is paid, and every payout is booked under the platform fee. */
  lemma DefaultRulesPayEveryone(service: RevenueSharingService, ss: seq<Stakeholder>)
    ensures forall s :: FindRule(s, service.DefaultRules()) == Some(service.DefaultRules()[0])
    ensures Matched(ss, service.DefaultRules()) == ss
    ensures service.DefaultRules()[0].id == "platform_fee_rule"
  {
    if ss != [] {
      DefaultRulesPayEveryone(service, ss[1..]);
      assert ss == [ss[0]] + ss[1..];
    }
  }

  /** The platform is served first, then the organizer, then the venue. */
  lemma DefaultOrder(service: RevenueSharingService, eventId: string)
    ensures var ss := service.DefaultStakeholders(eventId);
            Payees(ss, service.DefaultRules()) == [ss[1], ss[0], ss[2]]
  {
    var ss, rules := service.DefaultStakeholders(eventId), service.DefaultRules();
    DefaultPriorities(ss[0], ss[1], ss[2], rules[0], rules[1], rules[2]);
    assert rules == [rules[0], rules[1], rules[2]] && ss == [ss[0], ss[1], ss[2]];
    SortThree(ss[0], ss[1], ss[2], ByPriority(rules));
    DefaultRulesPayEveryone(service, SortByRules(ss, rules));
  }

  // ----- amounts -----------------------------------------------------------------------

  lemma ThreeClaims(a: real, b: real, c: real, balance: real)
    ensures var x := Min(a, balance);
            var y := Min(b, balance - x);
            Allocate([a, b, c], balance) == [x, y, Min(c, balance - x - y)]
  {
    var x := Min(a, balance);
    var y := Min(b, balance - x);
    assert [a, b, c][1..] == [b, c] && [b, c][1..] == [c];
    assert Allocate([c], balance - x - y) == [Min(c, balance - x - y)];
    assert Allocate([b, c], balance - x) == [y] + Allocate([c], balance - x - y);
    assert Allocate([a, b, c], balance) == [x] + Allocate([b, c], balance - x);
  }

  lemma SumOfThree(a: real, b: real, c: real)
    ensures Sum([a, b, c]) == a + b + c
  {
    assert [a, b, c][1..] == [b, c] && [b, c][1..] == [c];
    assert Sum([c]) == c;
    assert Sum([b, c]) == b + c;
  }

  /** Before the adjustment: the percentages of a net revenue that is not negative.
      Of a loss the platform bears all, and the others their percentage again. */
  lemma DefaultClaims(service: RevenueSharingService, net: real, eventId: string)
    requires service.config == DEFAULT_CONFIG
    ensures GrossAmounts(net, service.DefaultStakeholders(eventId), service.DefaultRules())
         == [Round2(if net >= 0.0 then net * 0.05 else net), Round2(net * 0.8), Round2(net * 0.1)]
  {
    var ss, rules := service.DefaultStakeholders(eventId), service.DefaultRules();
    DefaultOrder(service, eventId);
    ThreeClaims(net * 0.05, net * 0.8, net * 0.1, net);
    assert Claims(net, [ss[1], ss[0], ss[2]]) == [net * 0.05, net * 0.8, net * 0.1];
  }

  /** The default percentages leave a twentieth over, and the adjustment, meant for
      rounding, gives it to the organizer: for any net revenue that is not negative
      the organizer ends up with all but the two rounded fees, to the cent. Above
      0.50 the adjustment always fires. */
  lemma DefaultSplit(service: RevenueSharingService, net: real, eventId: string) returns (organizer: real)
    requires service.config == DEFAULT_CONFIG && net >= 0.0
    ensures var platform, venue := Round2(net * 0.05), Round2(net * 0.1);
            var ss, rules := service.DefaultStakeholders(eventId), service.DefaultRules();
            var rest := net - platform - venue;
            && Payouts(net, ss, rules) == [platform, organizer, venue]
            && WholeCents(organizer) && Abs(organizer - rest) <= 0.01
            && (NeedsAdjustment(net, GrossAmounts(net, ss, rules)) ==>
                  Abs(organizer - rest) <= 0.005 && (WholeCents(net) ==> organizer == rest))
            && (net > 0.5 ==> NeedsAdjustment(net, GrossAmounts(net, ss, rules)))
  {
    var platform, share, venue := Round2(net * 0.05), Round2(net * 0.8), Round2(net * 0.1);
    DefaultClaims(service, net, eventId);
    Round2Error(net * 0.05);
    Round2Error(net * 0.8);
    Round2Error(net * 0.1);
    organizer := TwentiethGoesToOrganizer(net, platform, share, venue);
  }

  lemma TwentiethGoesToOrganizer(net: real, platform: real, share: real, venue: real) returns (organizer: real)
    requires net >= 0.0 && WholeCents(platform) && WholeCents(share) && WholeCents(venue)
    requires Abs(platform - net * 0.05) <= 0.005 && Abs(share - net * 0.8) <= 0.005 && Abs(venue - net * 0.1) <= 0.005
    ensures var nets, rest := [platform, share, venue], net - platform - venue;
            && Adjust(net, nets) == [platform, organizer, venue]
            && WholeCents(organizer) && Abs(organizer - rest) <= 0.01
            && (NeedsAdjustment(net, nets) ==>
                  Abs(organizer - rest) <= 0.005 && (WholeCents(net) ==> organizer == rest))
            && (net > 0.5 ==> NeedsAdjustment(net, nets))
  {
    SumOfThree(platform, share, venue);
    if NeedsAdjustment(net, [platform, share, venue]) {
      OrganizerIsLargest(net, platform, share, venue);
      organizer := AdjustedMiddle(net, platform, share, venue);
    } else {
      organizer := share;
    }
  }

  lemma OrganizerIsLargest(net: real, platform: real, organizer: real, venue: real)
    requires net >= 0.0 && WholeCents(platform) && WholeCents(organizer) && WholeCents(venue)
    requires Abs(platform - net * 0.05) <= 0.005 && Abs(organizer - net * 0.8) <= 0.005 && Abs(venue - net * 0.1) <= 0.005
    requires Abs(net - (platform + organizer + venue)) > 0.01
    ensures platform < organizer && venue < organizer
  {
    var p := InCents(platform);
    var o := InCents(organizer);
    var v := InCents(venue);
  }

  lemma InCents(x: real) returns (k: int)
    requires WholeCents(x)
    ensures x == k as real / 100.0
  {
    k := (x * 100.0).Floor;
  }

  /** What the adjustment makes of the largest of three payouts. */
  lemma AdjustedMiddle(net: real, a: real, b: real, c: real) returns (b': real)
    requires WholeCents(a) && WholeCents(b) && WholeCents(c) && a < b && c < b
    requires NeedsAdjustment(net, [a, b, c])
    ensures Adjust(net, [a, b, c]) == [a, b', c] && WholeCents(b')
    ensures Abs(b' - (net - a - c)) <= 0.005 && (WholeCents(net) ==> b' == net - a - c)
  {
    var nets := [a, b, c];
    SumOfThree(a, b, c);
    assert nets[0] < nets[1] && nets[2] < nets[1];
    assert LargestIndex(nets) == 1;
    b' := AdjustedAmountIs(net, a, b, c);
  }

  lemma AdjustedAmountIs(net: real, a: real, b: real, c: real) returns (b': real)
    requires WholeCents(a) && WholeCents(b) && WholeCents(c)
    ensures b' == Round2(b + Round2(net - (a + b + c))) && WholeCents(b')
    ensures Abs(b' - (net - a - c)) <= 0.005 && (WholeCents(net) ==> b' == net - a - c)
  {
    var left := net - (a + b + c);
    Round2Error(left);
    AddWholeCents(b, Round2(left));
    b' := Round2(b + Round2(left));
    Round2Error(b + Round2(left));
    if WholeCents(net) {
      AddWholeCents(a, b);
      AddWholeCents(a + b, c);
      SubWholeCents(net, a + b + c);
    }
  }

  /** When fees exceed sales the default split charges the platform the whole loss
      and the organizer four fifths of it again, and the adjustment pays those
      four fifths out to the venue. */
  lemma DefaultLoss(service: RevenueSharingService, net: real, eventId: string) returns (venue: real)
    requires service.config == DEFAULT_CONFIG && net < 0.0
    ensures var platform, organizer := Round2(net), Round2(net * 0.8);
            var ss, rules := service.DefaultStakeholders(eventId), service.DefaultRules();
            var rest := net - platform - organizer;
            && Payouts(net, ss, rules) == [platform, organizer, venue]
            && WholeCents(venue) && Abs(venue - rest) <= 0.01
            && (NeedsAdjustment(net, GrossAmounts(net, ss, rules)) ==>
                  Abs(venue - rest) <= 0.005 && (WholeCents(net) ==> venue == rest))
            && (net < -0.05 ==> NeedsAdjustment(net, GrossAmounts(net, ss, rules)) && venue > 0.0)
  {
    var platform, organizer, share := Round2(net), Round2(net * 0.8), Round2(net * 0.1);
    DefaultClaims(service, net, eventId);
    Round2Error(net);
    Round2Error(net * 0.8);
    Round2Error(net * 0.1);
    venue := LossGoesToVenue(net, platform, organizer, share);
  }

  lemma LossGoesToVenue(net: real, platform: real, organizer: real, share: real) returns (venue: real)
    requires net < 0.0 && WholeCents(platform) && WholeCents(organizer) && WholeCents(share)
    requires Abs(platform - net) <= 0.005 && Abs(organizer - net * 0.8) <= 0.005 && Abs(share - net * 0.1) <= 0.005
    ensures var nets, rest := [platform, organizer, share], net - platform - organizer;
            && Adjust(net, nets) == [platform, organizer, venue]
            && WholeCents(venue) && Abs(venue - rest) <= 0.01
            && (NeedsAdjustment(net, nets) ==> Abs(venue - rest) <= 0.005 && (WholeCents(net) ==> venue == rest))
            && (net < -0.05 ==> NeedsAdjustment(net, nets) && venue > 0.0)
  {
    SumOfThree(platform, organizer, share);
    if NeedsAdjustment(net, [platform, organizer, share]) {
      VenueIsLargest(net, platform, organizer, share);
      venue := AdjustedLast(net, platform, organizer, share);
    } else {
      venue := share;
    }
  }

  lemma VenueIsLargest(net: real, platform: real, organizer: real, venue: real)
    requires net < 0.0 && WholeCents(platform) && WholeCents(organizer) && WholeCents(venue)
    requires Abs(platform - net) <= 0.005 && Abs(organizer - net * 0.8) <= 0.005 && Abs(venue - net * 0.1) <= 0.005
    requires Abs(net - (platform + organizer + venue)) > 0.01
    ensures platform < venue && organizer < venue
  {
    var p := InCents(platform);
    var o := InCents(organizer);
    var v := InCents(venue);
  }

  lemma AdjustedLast(net: real, a: real, b: real, c: real) returns (c': real)
    requires WholeCents(a) && WholeCents(b) && WholeCents(c) && a < c && b < c
    requires NeedsAdjustment(net, [a, b, c])
    ensures Adjust(net, [a, b, c]) == [a, b, c'] && WholeCents(c')
    ensures Abs(c' - (net - a - b)) <= 0.005 && (WholeCents(net) ==> c' == net - a - b)
  {
    var nets := [a, b, c];
    SumOfThree(a, b, c);
    assert nets[0] < nets[2] && nets[1] < nets[2];
    assert LargestIndex(nets) == 2;
    c' := AdjustedAmountIs(net, a, c, b);
  }
}
