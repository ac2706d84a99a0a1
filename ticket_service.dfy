/** The ticket service: reconciles the assignment service's records with the
    issue tracker's comments, giving for every user the latest comment they
    left on each of their Jira tickets. */
module TicketService {
  import opened Models
  import opened Sayori
  import opened Jira
  import opened Dynamo

  /* ---------------------------------------------------------------------- */
  /* Link filter                                                            */
  /* ---------------------------------------------------------------------- */

  const JiraPrefix: string := "https://jira."

  /** A record is sent to Jira only when its link has at least 13 characters
      and the first 13 are the Jira prefix; shorter links are rejected
      before any slicing. */
  predicate IsJiraLink(link: string)
  {
    !(|link| < 13 || link[..13] != JiraPrefix)
  }

  /** The filter is exactly a prefix test. */
  lemma IsJiraLinkIsPrefix(link: string)
    ensures IsJiraLink(link) <==> JiraPrefix <= link
    ensures |link| < 13 ==> !IsJiraLink(link)
  {
  }

  /* ---------------------------------------------------------------------- */
  /* Grouping                                                               */
  /* ---------------------------------------------------------------------- */

  function DisplayNameOf(t: SayoriResponse): string
  {
    t.botUser.displayName
  }

  /** The display names that occur in the records. */
  function Names(tickets: seq<SayoriResponse>): set<string>
  {
    set k | 0 <= k < |tickets| :: DisplayNameOf(tickets[k])
  }

  /** The records of user `d`, in input order. */
  function TicketsOf(tickets: seq<SayoriResponse>, d: string): (r: seq<SayoriResponse>)
    ensures |r| <= |tickets|
  {
    if tickets == [] then []
    else
      var last := tickets[|tickets| - 1];
      TicketsOf(tickets[..|tickets| - 1], d) + (if DisplayNameOf(last) == d then [last] else [])
  }

  /** A record lands in the group of its own display name and in no other. */
  lemma {:induction false} TicketsOfMembership(tickets: seq<SayoriResponse>, d: string, t: SayoriResponse)
    ensures t in TicketsOf(tickets, d) <==> t in tickets && DisplayNameOf(t) == d
  {
    if tickets != [] {
      var init := tickets[..|tickets| - 1];
      TicketsOfMembership(init, d, t);
      assert tickets == init + [tickets[|tickets| - 1]];
    }
  }

  /** Grouping distributes over concatenation, so each group keeps the
      relative order of the input. */
  lemma {:induction false} TicketsOfAppend(a: seq<SayoriResponse>, b: seq<SayoriResponse>, d: string)
    ensures TicketsOf(a + b, d) == TicketsOf(a, d) + TicketsOf(b, d)
    decreases |b|
  {
    if b == [] {
      assert a + b == a;
    } else {
      var b' := b[..|b| - 1];
      assert (a + b)[..|a + b| - 1] == a + b';
      TicketsOfAppend(a, b', d);
    }
  }

  /** Adding one record adds its display name. */
  lemma NamesSnoc(tickets: seq<SayoriResponse>, i: nat)
    requires i < |tickets|
    ensures Names(tickets[..i + 1]) == Names(tickets[..i]) + {DisplayNameOf(tickets[i])}
  {
  }

  /** A display name that occurs in no record has an empty group. */
  lemma {:induction false} TicketsOfAbsent(tickets: seq<SayoriResponse>, d: string)
    requires d !in Names(tickets)
    ensures TicketsOf(tickets, d) == []
  {
    if tickets != [] {
      var init := tickets[..|tickets| - 1];
      assert Names(init) <= Names(tickets) by {
        forall e | e in Names(init) ensures e in Names(tickets) {
          var k :| 0 <= k < |init| && DisplayNameOf(init[k]) == e;
          assert tickets[k] == init[k];
        }
      }
      TicketsOfAbsent(init, d);
      assert DisplayNameOf(tickets[|tickets| - 1]) in Names(tickets);
    }
  }

  /** Record `k` is the first record with display name `d`. */
  ghost predicate IsFirstOf(tickets: seq<SayoriResponse>, d: string, k: nat)
  {
    k < |tickets| && DisplayNameOf(tickets[k]) == d
    && forall j :: 0 <= j < k ==> DisplayNameOf(tickets[j]) != d
  }

  /** The first loop of the reconciliation: groups the records by display
      name and remembers, per display name, the bot user id of the first
      record that carries it. */
  method GroupTickets(tickets: seq<SayoriResponse>)
    returns (userTickets: map<string, seq<SayoriResponse>>, botUserIds: map<string, string>)
    ensures userTickets.Keys == Names(tickets) && botUserIds.Keys == Names(tickets)
    ensures forall d :: d in userTickets ==> userTickets[d] == TicketsOf(tickets, d)
    ensures forall d :: d in botUserIds ==>
              exists k: nat :: IsFirstOf(tickets, d, k) && botUserIds[d] == tickets[k].botUserId
  {
    userTickets, botUserIds := map[], map[];
    for i := 0 to |tickets|
      invariant userTickets.Keys == Names(tickets[..i]) && botUserIds.Keys == Names(tickets[..i])
      invariant forall d :: d in userTickets ==> userTickets[d] == TicketsOf(tickets[..i], d)
      invariant forall d :: d in botUserIds ==>
                  exists k: nat :: k < i && IsFirstOf(tickets, d, k) && botUserIds[d] == tickets[k].botUserId
    {
      var ticket := tickets[i];
      var displayName := ticket.botUser.displayName;
      var botUserId := ticket.botUserId;
      assert tickets[..i + 1][..i] == tickets[..i];
      NamesSnoc(tickets, i);
      if displayName !in botUserIds {
        forall j | 0 <= j < i ensures DisplayNameOf(tickets[j]) != displayName {
          assert tickets[..i][j] == tickets[j];
        }
        assert IsFirstOf(tickets, displayName, i);
        botUserIds := botUserIds[displayName := botUserId];
      }
      if displayName !in userTickets {
        TicketsOfAbsent(tickets[..i], displayName);
      }
      var group := if displayName in userTickets then userTickets[displayName] else [];
      userTickets := userTickets[displayName := group + [ticket]];
    }
    assert tickets[..|tickets|] == tickets;
  }

  /* ---------------------------------------------------------------------- */
  /* Per-user resolution                                                    */
  /* ---------------------------------------------------------------------- */

  /** The record `t` of user `d` yields an entry: its link passes the
      filter, the fetch succeeds, and the user's last comment is not "". */
  predicate Contributes(t: SayoriResponse, d: string, server: map<string, JiraTicket>)
  {
    && IsJiraLink(t.link)
    && t.ticketId in server
    && LastCommentBody(CommentsOf(server[t.ticketId]), d) != ""
  }

  /** Ticket id to last comment for the records `tickets` of user `d`, as
      the inner loop builds it; `server` gives the fetch outcomes. */
  function Resolve(tickets: seq<SayoriResponse>, d: string, server: map<string, JiraTicket>): map<string, string>
  {
    if tickets == [] then map[]
    else
      var m := Resolve(tickets[..|tickets| - 1], d, server);
      var t := tickets[|tickets| - 1];
      if Contributes(t, d, server) then m[t.ticketId := LastCommentBody(CommentsOf(server[t.ticketId]), d)]
      else m
  }

  /** The keys of Resolve are exactly the ids of contributing records, and
      each maps to the non-empty last comment of the user on that ticket. */
  lemma {:induction false} ResolveCharacterised(tickets: seq<SayoriResponse>, d: string, server: map<string, JiraTicket>)
    ensures forall id :: id in Resolve(tickets, d, server) <==>
              exists t :: t in tickets && t.ticketId == id && Contributes(t, d, server)
    ensures forall id :: id in Resolve(tickets, d, server) ==>
              id in server && Resolve(tickets, d, server)[id] == LastCommentBody(CommentsOf(server[id]), d)
              && Resolve(tickets, d, server)[id] != ""
  {
    if tickets != [] {
      var init := tickets[..|tickets| - 1];
      ResolveCharacterised(init, d, server);
      assert tickets == init + [tickets[|tickets| - 1]];
    }
  }

  /** A record whose link is rejected or whose fetch fails can be removed
      without changing the outcome for the user's other records. */
  lemma FailureIsolated(tickets: seq<SayoriResponse>, i: nat, d: string, server: map<string, JiraTicket>)
    requires i < |tickets|
    requires !IsJiraLink(tickets[i].link) || tickets[i].ticketId !in server
    ensures Resolve(tickets, d, server) == Resolve(tickets[..i] + tickets[i + 1..], d, server)
  {
    var rest := tickets[..i] + tickets[i + 1..];
    ResolveCharacterised(tickets, d, server);
    ResolveCharacterised(rest, d, server);
    assert tickets == tickets[..i] + [tickets[i]] + tickets[i + 1..];
    forall t | t in tickets && Contributes(t, d, server) ensures t in rest {
      assert t != tickets[i];
    }
    assert Resolve(tickets, d, server).Keys == Resolve(rest, d, server).Keys;
  }

  /** Ids of the records whose link passes the filter, in order: the
      fetches the inner loop makes. */
  function AdmittedIds(tickets: seq<SayoriResponse>): (r: seq<string>)
    ensures |r| <= |tickets|
  {
    if tickets == [] then []
    else
      var t := tickets[|tickets| - 1];
      AdmittedIds(tickets[..|tickets| - 1]) + (if IsJiraLink(t.link) then [t.ticketId] else [])
  }

  /** Every fetch is of an admitted record: a rejected link is never sent
      to Jira. */
  lemma {:induction false} AdmittedIdsMembership(tickets: seq<SayoriResponse>, id: string)
    ensures id in AdmittedIds(tickets) <==> exists t :: t in tickets && t.ticketId == id && IsJiraLink(t.link)
  {
    if tickets != [] {
      var init := tickets[..|tickets| - 1];
      AdmittedIdsMembership(init, id);
      assert tickets == init + [tickets[|tickets| - 1]];
    }
  }

  /** The inner loop of the reconciliation: for each record of one user,
      skips a rejected link, a failed fetch or a failed lookup, and records
      the user's last comment on the ticket when it is not "". */
  method LastCommentsOfUser(jira: JiraClient, displayName: string, tickets: seq<SayoriResponse>)
    returns (ticketLastComments: map<string, string>)
    modifies jira
    ensures ticketLastComments == Resolve(tickets, displayName, jira.server)
    ensures jira.requested == old(jira.requested) + AdmittedIds(tickets)
  {
    ticketLastComments := map[];
    for i := 0 to |tickets|
      invariant ticketLastComments == Resolve(tickets[..i], displayName, jira.server)
      invariant jira.requested == old(jira.requested) + AdmittedIds(tickets[..i])
    {
      var ticket := tickets[i];
      assert tickets[..i + 1][..i] == tickets[..i];
      if |ticket.link| < 13 || ticket.link[..13] != JiraPrefix {
        continue;
      }
      var jiraTicketId := ticket.ticketId;
      var jiraTicket := jira.GetTicket(jiraTicketId);
      if jiraTicket.Err? {
        continue;
      }
      var lastComment, err := jira.GetLastCommentByUser(jiraTicket.value, displayName);
      if err.Some? {
        continue;
      }
      if lastComment != "" {
        ticketLastComments := ticketLastComments[jiraTicketId := lastComment];
      }
    }
    assert tickets[..|tickets|] == tickets;
  }

  /* ---------------------------------------------------------------------- */
  /* Reconciliation                                                         */
  /* ---------------------------------------------------------------------- */

  /** The per-user results for the users in `users`, leaving out users whose
      result is empty. */
  function ResultFor(tickets: seq<SayoriResponse>, server: map<string, JiraTicket>, users: set<string>)
    : (r: map<string, map<string, string>>)
    ensures r.Keys <= users
    ensures forall u :: u in r ==> r[u] != map[]
  {
    map u | u in users && Resolve(TicketsOf(tickets, u), u, server) != map[] :: Resolve(TicketsOf(tickets, u), u, server)
  }

  /** The reconciliation result for the records `tickets` when Jira answers
      as `server` says. */
  function Reconcile(tickets: seq<SayoriResponse>, server: map<string, JiraTicket>): map<string, map<string, string>>
  {
    ResultFor(tickets, server, Names(tickets))
  }

  /** Every entry of the result comes from a record of that user with a Jira
      link, a successful fetch, and a latest comment by that user. */
  lemma ReconcileSound(tickets: seq<SayoriResponse>, server: map<string, JiraTicket>, u: string, id: string)
    requires u in Reconcile(tickets, server) && id in Reconcile(tickets, server)[u]
    ensures exists t :: t in tickets && DisplayNameOf(t) == u && t.ticketId == id && IsJiraLink(t.link)
    ensures id in server
    ensures Reconcile(tickets, server)[u][id] != ""
    ensures exists k: nat :: IsLatest(CommentsOf(server[id]), u, k)
                             && Reconcile(tickets, server)[u][id] == CommentsOf(server[id])[k].body
  {
    var group := TicketsOf(tickets, u);
    ResolveCharacterised(group, u, server);
    var t :| t in group && t.ticketId == id && Contributes(t, u, server);
    TicketsOfMembership(tickets, u, t);
    LastCommentBodyMeaning(CommentsOf(server[id]), u);
  }

  /** Every record that yields a comment appears in the result, whatever
      happens to the user's other records. */
  lemma ReconcileComplete(tickets: seq<SayoriResponse>, server: map<string, JiraTicket>, k: nat)
    requires k < |tickets| && Contributes(tickets[k], DisplayNameOf(tickets[k]), server)
    ensures DisplayNameOf(tickets[k]) in Reconcile(tickets, server)
    ensures tickets[k].ticketId in Reconcile(tickets, server)[DisplayNameOf(tickets[k])]
  {
    var u := DisplayNameOf(tickets[k]);
    var group := TicketsOf(tickets, u);
    TicketsOfMembership(tickets, u, tickets[k]);
    ResolveCharacterised(group, u, server);
    assert u in Names(tickets);
    assert tickets[k].ticketId in Resolve(group, u, server);
  }

  /** A user without a qualifying comment on any ticket is absent. */
  lemma ReconcileOmitsSilentUsers(tickets: seq<SayoriResponse>, server: map<string, JiraTicket>, u: string)
    requires forall t :: t in tickets && DisplayNameOf(t) == u ==> !Contributes(t, u, server)
    ensures u !in Reconcile(tickets, server)
  {
    var group := TicketsOf(tickets, u);
    ResolveCharacterised(group, u, server);
    forall t | t in group ensures !Contributes(t, u, server) {
      TicketsOfMembership(tickets, u, t);
    }
    assert Resolve(group, u, server).Keys == {};
  }

  /** The fetches of the users in `users`, as one sequence in input order. */
  function AdmittedIdsOf(tickets: seq<SayoriResponse>, users: set<string>): seq<string>
  {
    if tickets == [] then []
    else
      var t := tickets[|tickets| - 1];
      AdmittedIdsOf(tickets[..|tickets| - 1], users)
        + (if DisplayNameOf(t) in users && IsJiraLink(t.link) then [t.ticketId] else [])
  }

  /** Admitting one more record appends its id when its link passes. */
  lemma AdmittedIdsSnoc(g: seq<SayoriResponse>, t: SayoriResponse)
    ensures AdmittedIds(g + [t]) == AdmittedIds(g) + (if IsJiraLink(t.link) then [t.ticketId] else [])
  {
  }

  /** One step of AdmittedIdsOf, for the last record. */
  lemma AdmittedIdsOfLast(tickets: seq<SayoriResponse>, users: set<string>)
    requires tickets != []
    ensures var t := tickets[|tickets| - 1];
            AdmittedIdsOf(tickets, users)
            == AdmittedIdsOf(tickets[..|tickets| - 1], users)
               + (if DisplayNameOf(t) in users && IsJiraLink(t.link) then [t.ticketId] else [])
  {
  }

  /** Taking in one more user adds that user's fetches. */
  lemma {:induction false} AdmittedIdsOfAddUser(tickets: seq<SayoriResponse>, users: set<string>, d: string)
    requires d !in users
    ensures multiset(AdmittedIdsOf(tickets, users + {d}))
         == multiset(AdmittedIdsOf(tickets, users)) + multiset(AdmittedIds(TicketsOf(tickets, d)))
  {
    if tickets != [] {
      var init := tickets[..|tickets| - 1];
      var t := tickets[|tickets| - 1];
      AdmittedIdsOfAddUser(init, users, d);
      AdmittedIdsOfLast(tickets, users + {d});
      AdmittedIdsOfLast(tickets, users);
      TicketsOfLast(tickets, d);
      AdmittedIdsSnoc(TicketsOf(init, d), t);
      var x := if IsJiraLink(t.link) then [t.ticketId] else [];
      var sameUser := DisplayNameOf(t) == d;
      var otherUser := DisplayNameOf(t) in users;
      var g := AdmittedIds(TicketsOf(init, d));
      assert g + [] == g;
      MultisetStep(AdmittedIdsOf(init, users + {d}), AdmittedIdsOf(init, users), g, x, sameUser, otherUser);
    }
  }

  lemma TicketsOfLast(tickets: seq<SayoriResponse>, d: string)
    requires tickets != []
    ensures var t := tickets[|tickets| - 1];
            TicketsOf(tickets, d) == if DisplayNameOf(t) == d then TicketsOf(tickets[..|tickets| - 1], d) + [t]
                                     else TicketsOf(tickets[..|tickets| - 1], d)
  {
  }

  /** The multiset arithmetic behind AdmittedIdsOfAddUser: the last id goes
      to the new user's group, to the old users, or nowhere. */
  lemma MultisetStep(withD: seq<string>, without: seq<string>, g: seq<string>, x: seq<string>, sameUser: bool, otherUser: bool)
    requires multiset(withD) == multiset(without) + multiset(g)
    requires !(sameUser && otherUser)
    ensures multiset(withD + (if sameUser || otherUser then x else []))
         == multiset(without + (if otherUser then x else [])) + multiset(g + (if sameUser then x else []))
  {
  }

  /** No user, no fetch. */
  lemma {:induction false} AdmittedIdsOfNoUsers(tickets: seq<SayoriResponse>)
    ensures AdmittedIdsOf(tickets, {}) == []
  {
    if tickets != [] {
      AdmittedIdsOfNoUsers(tickets[..|tickets| - 1]);
    }
  }

  lemma {:induction false} AdmittedIdsOfAllUsers(tickets: seq<SayoriResponse>, users: set<string>)
    requires Names(tickets) <= users
    ensures AdmittedIdsOf(tickets, users) == AdmittedIds(tickets)
  {
    if tickets != [] {
      var init := tickets[..|tickets| - 1];
      assert Names(init) <= Names(tickets) by {
        forall d | d in Names(init) ensures d in Names(tickets) {
          var k :| 0 <= k < |init| && DisplayNameOf(init[k]) == d;
          assert tickets[k] == init[k];
        }
      }
      AdmittedIdsOfAllUsers(init, users);
      assert DisplayNameOf(tickets[|tickets| - 1]) in Names(tickets);
    }
  }

  /** Taking in one more user adds that user's entry, unless it is empty. */
  lemma ResultForAddUser(tickets: seq<SayoriResponse>, server: map<string, JiraTicket>, users: set<string>, d: string)
    ensures var m := Resolve(TicketsOf(tickets, d), d, server);
            ResultFor(tickets, server, users + {d})
            == if |m| > 0 then ResultFor(tickets, server, users)[d := m] else ResultFor(tickets, server, users)
  {
  }

  /** Appending to a sequence that extends `before` extends its suffix. */
  lemma SuffixAppend(before: seq<string>, mid: seq<string>, added: seq<string>)
    requires |before| <= |mid| && mid[..|before|] == before
    ensures (mid + added)[..|before|] == before
    ensures (mid + added)[|before|..] == mid[|before|..] + added
  {
  }

  function SayoriFailed(message: string): string
  {
    "failed to get tickets from Sayori: " + message
  }

  /** Fetches all assignment records, groups them by the assigned user's
      display name, and for each user keeps the latest comment per Jira
      ticket. Also returns, per display name, the bot user id of its first
      record. Fails only when the assignment records cannot be fetched. */
  method GetCommentsByUser(sayori: SayoriClient, jira: JiraClient)
    returns (result: map<string, map<string, string>>, botUserIds: map<string, string>, err: Option<string>)
    modifies jira
    ensures sayori.answer.Err? ==>
              && result == map[] && botUserIds == map[]
              && err == Some(SayoriFailed(sayori.answer.message))
              && jira.requested == old(jira.requested)
    ensures sayori.answer.Ok? ==>
              && err == None
              && result == Reconcile(sayori.answer.value, jira.server)
              && botUserIds.Keys == Names(sayori.answer.value)
              && (forall d :: d in botUserIds ==>
                    exists k: nat :: IsFirstOf(sayori.answer.value, d, k)
                                     && botUserIds[d] == sayori.answer.value[k].botUserId)
              && |old(jira.requested)| <= |jira.requested|
              && jira.requested[..|old(jira.requested)|] == old(jira.requested)
              && multiset(jira.requested[|old(jira.requested)|..]) == multiset(AdmittedIds(sayori.answer.value))
  {
    var sayoriTickets := sayori.GetTickets();
    if sayoriTickets.Err? {
      return map[], map[], Some(SayoriFailed(sayoriTickets.message));
    }
    var tickets := sayoriTickets.value;
    var userTickets, mapBotUserDisplayName := GroupTickets(tickets);
    ghost var before := jira.requested;
    result := map[];
    var remaining := userTickets.Keys;
    AdmittedIdsOfNoUsers(tickets);
    assert userTickets.Keys - remaining == {};
    while remaining != {}
      invariant remaining <= userTickets.Keys
      invariant result == ResultFor(tickets, jira.server, userTickets.Keys - remaining)
      invariant |before| <= |jira.requested| && jira.requested[..|before|] == before
      invariant multiset(jira.requested[|before|..])
             == multiset(AdmittedIdsOf(tickets, userTickets.Keys - remaining))
      decreases remaining
    {
      var displayName :| displayName in remaining;
      ghost var done := userTickets.Keys - remaining;
      ghost var mid := jira.requested;
      var ticketLastComments := LastCommentsOfUser(jira, displayName, userTickets[displayName]);
      if |ticketLastComments| > 0 {
        result := result[displayName := ticketLastComments];
      }
      remaining := remaining - {displayName};
      assert userTickets.Keys - remaining == done + {displayName};
      ResultForAddUser(tickets, jira.server, done, displayName);
      AdmittedIdsOfAddUser(tickets, done, displayName);
      SuffixAppend(before, mid, AdmittedIds(userTickets[displayName]));
    }
    AdmittedIdsOfAllUsers(tickets, userTickets.Keys);
    assert userTickets.Keys - remaining == Names(tickets);
    botUserIds, err := mapBotUserDisplayName, None;
  }

  /* ---------------------------------------------------------------------- */
  /* Single-ticket path and storage key                                     */
  /* ---------------------------------------------------------------------- */

  function JiraFailed(message: string): string
  {
    "failed to get ticket from Jira: " + message
  }

  /** Fetches one Jira ticket and returns the bodies of the comments whose
      author's display name is `displayName`; fails when the fetch fails. */
  method GetCommentsByDisplayName(jira: JiraClient, ticketId: string, displayName: string)
    returns (comments: seq<string>, err: Option<string>)
    modifies jira
    ensures jira.requested == old(jira.requested) + [ticketId]
    ensures ticketId !in jira.server ==> comments == [] && err == Some(JiraFailed(FetchFailed(ticketId)))
    ensures ticketId in jira.server ==>
              err == None && comments == CommentsBy(CommentsOf(jira.server[ticketId]), displayName)
  {
    var jiraTicket := jira.GetTicket(ticketId);
    if jiraTicket.Err? {
      return [], Some(JiraFailed(jiraTicket.message));
    }
    var userComments, e := jira.GetCommentsByUser(jiraTicket.value, displayName);
    match e {
      case Some(message) =>
        return [], Some("failed to get comments by display name: " + message);
      case None =>
    }
    comments, err := userComments, None;
  }

  const TicketKeyPrefix: string := "#TICKET#"

  /** The sort key under which a ticket's comment is stored. */
  function TicketSortKey(ticketId: string): (key: string)
    ensures |key| == |TicketKeyPrefix| + |ticketId|
    ensures TicketKeyPrefix <= key
  {
    TicketKeyPrefix + ticketId
  }

  /** Recovers the ticket id from a sort key. */
  function TicketIdOfKey(key: string): Option<string>
  {
    if TicketKeyPrefix <= key then Some(key[|TicketKeyPrefix|..]) else None
  }

  /** The sort key is exactly the prefix followed by the id, so distinct
      tickets never share a key. */
  lemma TicketSortKeyRoundTrip(ticketId: string)
    ensures TicketIdOfKey(TicketSortKey(ticketId)) == Some(ticketId)
  {
  }

  lemma TicketSortKeyInjective(a: string, b: string)
    requires TicketSortKey(a) == TicketSortKey(b)
    ensures a == b
  {
    TicketSortKeyRoundTrip(a);
    TicketSortKeyRoundTrip(b);
  }

  /** Stores one user's last comment on one ticket under the user's bot id
      and the ticket's sort key. */
  method PutItemInDynamo(dynamo: DynamoDBClient, botUserId: string, ticketId: string, lastComment: string)
    returns (err: Option<string>)
    modifies dynamo
    ensures dynamo.failure.None? ==>
              err == None && dynamo.items == old(dynamo.items) + [StoredItem(botUserId, TicketSortKey(ticketId), lastComment)]
    ensures dynamo.failure.Some? ==>
              err == Some(PutFailed(PutFailed(dynamo.failure.value))) && dynamo.items == old(dynamo.items)
  {
    var ticketKey := TicketKeyPrefix + ticketId;
    var e := dynamo.PutTicketCommentsInDynammo(botUserId, ticketKey, lastComment);
    if e.Some? {
      return Some(PutFailed(e.value));
    }
    err := None;
  }
}
