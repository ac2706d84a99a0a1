/** Worked examples of the reconciliation, stated as lemmas over the model. */
module Scenarios {
  import opened Models
  import opened Jira
  import opened TicketService

  /** An assignment record with only the fields the reconciliation reads. */
  function Assignment(ticketId: string, link: string, user: string, botUserId: string): SayoriResponse
  {
    SayoriResponse(0, link, 0, ticketId, botUserId, 0, "", "", 0, 0, BotUser(botUserId, user, "", "", user))
  }

  /** A comment whose author has the same account and display name. */
  function Comment(author: string, body: string, created: Time): JiraComment
  {
    JiraComment("", body, created, created, JiraUser("", "", author, author, true))
  }

  function Ticket(comments: seq<JiraComment>): JiraTicket
  {
    JiraTicket(JiraFields("", "", JiraCommentWrapper(comments)))
  }

  /** Two comments at the same instant: the first one in list order wins,
      and a comment whose author matches only by display name is ignored. */
  lemma TieGoesToFirstComment()
    ensures LastCommentBody([Comment("alice", "early", 5), Comment("alice", "same time", 5)], "alice") == "early"
    ensures LastCommentBody([JiraComment("", "by display name", 1, 1, JiraUser("", "", "alice", "a.smith", true))], "alice") == ""
  {
    var cs := [Comment("alice", "early", 5), Comment("alice", "same time", 5)];
    assert cs[..1] == [cs[0]];
    assert cs[..1][..0] == [];
  }

  const AliceJira := Assignment("A-1", "https://jira.example.com/A-1", "alice", "U1")
  const AliceOther := Assignment("A-2", "https://other.example.com/A-2", "alice", "U1")
  const AliceTickets := [AliceJira, AliceOther]
  const AliceComments := [Comment("alice", "first", 1), Comment("bob", "from bob", 3), Comment("alice", "second", 2)]
  const AliceServer := map["A-1" := Ticket(AliceComments)]

  lemma AliceLinks()
    ensures IsJiraLink(AliceJira.link) && !IsJiraLink(AliceOther.link)
  {
    assert AliceJira.link[..13] == JiraPrefix;
    assert AliceOther.link[..13][8] == 'o';
  }

  lemma AliceLatest()
    ensures LastCommentBody(AliceComments, "alice") == "second"
  {
    var cs := AliceComments;
    assert cs[..2] == [cs[0], cs[1]];
    assert cs[..2][..1] == [cs[0]];
    assert cs[..2][..1][..0] == [];
    assert LatestIndex(cs[..1], "alice") == Some(0);
    assert LatestIndex(cs[..2], "alice") == Some(0);
  }

  lemma AliceResolve()
    ensures Names(AliceTickets) == {"alice"}
    ensures TicketsOf(AliceTickets, "alice") == AliceTickets
    ensures Resolve(AliceTickets, "alice", AliceServer) == map["A-1" := "second"]
  {
    var tickets := AliceTickets;
    assert DisplayNameOf(tickets[0]) == "alice" && DisplayNameOf(tickets[1]) == "alice";
    assert tickets[..1] == [AliceJira];
    assert tickets[..1][..0] == [];
    AliceLinks();
    AliceLatest();
    assert CommentsOf(AliceServer["A-1"]) == AliceComments;
    assert Contributes(AliceJira, "alice", AliceServer);
    assert !Contributes(AliceOther, "alice", AliceServer);
    assert Resolve([AliceJira], "alice", AliceServer) == map["A-1" := "second"];
  }

  lemma AliceFetches()
    ensures AdmittedIds(AliceTickets) == ["A-1"]
  {
    AliceLinks();
    assert AliceTickets[..1] == [AliceJira];
    assert AliceTickets[..1][..0] == [];
  }

  /** Alice is assigned a Jira ticket with two of her comments and one of
      Bob's, and a ticket on another tracker: only the Jira ticket is
      fetched, and her later comment on it is the whole result. */
  lemma EndToEnd()
    ensures AdmittedIds(AliceTickets) == ["A-1"]
    ensures Reconcile(AliceTickets, AliceServer) == map["alice" := map["A-1" := "second"]]
  {
    AliceFetches();
    AliceResolve();
    var r := Reconcile(AliceTickets, AliceServer);
    assert "A-1" in Resolve(TicketsOf(AliceTickets, "alice"), "alice", AliceServer);
    assert r.Keys == {"alice"};
  }

  const BobFailing := Assignment("B-1", "https://jira.example.com/B-1", "bob", "U2")
  const BobFetched := Assignment("B-2", "https://jira.example.com/B-2", "bob", "U2")
  const BobTickets := [BobFailing, BobFetched]
  const BobServer := map["B-2" := Ticket([Comment("bob", "done", 7)])]

  lemma BobResolve()
    ensures Names(BobTickets) == {"bob"}
    ensures TicketsOf(BobTickets, "bob") == BobTickets
    ensures Resolve(BobTickets, "bob", BobServer) == map["B-2" := "done"]
  {
    var tickets := BobTickets;
    assert DisplayNameOf(tickets[0]) == "bob" && DisplayNameOf(tickets[1]) == "bob";
    assert tickets[..1] == [BobFailing];
    assert tickets[..1][..0] == [];
    assert BobFetched.link[..13] == JiraPrefix;
    var cs := [Comment("bob", "done", 7)];
    assert cs[..0] == [];
    assert CommentsOf(BobServer["B-2"]) == cs;
    assert LastCommentBody(cs, "bob") == "done";
    assert !Contributes(BobFailing, "bob", BobServer);
    assert Contributes(BobFetched, "bob", BobServer);
    assert Resolve([BobFailing], "bob", BobServer) == map[];
  }

  /** The first of two admitted tickets cannot be fetched: the second one
      still yields its comment, and the failure does not surface. */
  lemma PartialFailure()
    ensures Reconcile(BobTickets, BobServer) == map["bob" := map["B-2" := "done"]]
  {
    BobResolve();
    var r := Reconcile(BobTickets, BobServer);
    assert "B-2" in Resolve(TicketsOf(BobTickets, "bob"), "bob", BobServer);
    assert r.Keys == {"bob"};
  }
}
