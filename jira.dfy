/** The client of the issue tracker (Jira): fetching one ticket, and the two
    ways of reading a user's comments off a fetched ticket. */
module Jira {
  import opened Models

  /** Bodies of the comments whose author's display name is `displayName`,
      in list order. */
  function CommentsBy(cs: seq<JiraComment>, displayName: string): (r: seq<string>)
    ensures |r| <= |cs|
  {
    if cs == [] then []
    else
      var last := cs[|cs| - 1];
      CommentsBy(cs[..|cs| - 1], displayName)
        + (if last.author.displayName == displayName then [last.body] else [])
  }

  /** Filtering distributes over concatenation: the result keeps the
      relative order of the comments it keeps. */
  lemma {:induction false} CommentsByAppend(a: seq<JiraComment>, b: seq<JiraComment>, displayName: string)
    ensures CommentsBy(a + b, displayName) == CommentsBy(a, displayName) + CommentsBy(b, displayName)
    decreases |b|
  {
    if b == [] {
      assert a + b == a;
    } else {
      var b' := b[..|b| - 1];
      assert (a + b)[..|a + b| - 1] == a + b';
      CommentsByAppend(a, b', displayName);
    }
  }

  /** A body is in the result exactly when some comment by that display name
      carries it. */
  lemma {:induction false} CommentsByMembership(cs: seq<JiraComment>, displayName: string, body: string)
    ensures body in CommentsBy(cs, displayName)
        <==> exists k :: 0 <= k < |cs| && cs[k].author.displayName == displayName && cs[k].body == body
  {
    if cs != [] {
      var init := cs[..|cs| - 1];
      CommentsByMembership(init, displayName, body);
      if exists k :: 0 <= k < |cs| && cs[k].author.displayName == displayName && cs[k].body == body {
        var k :| 0 <= k < |cs| && cs[k].author.displayName == displayName && cs[k].body == body;
        if k < |cs| - 1 {
          assert init[k] == cs[k];
        }
      }
    }
  }

  /** The comment `k` is a latest comment by the account `name`: it is by
      that account, no comment by that account is later, and every earlier
      comment by that account is strictly earlier in time. */
  ghost predicate IsLatest(cs: seq<JiraComment>, name: string, k: nat)
  {
    && k < |cs|
    && cs[k].author.name == name
    && (forall j :: 0 <= j < |cs| && cs[j].author.name == name ==> cs[j].created <= cs[k].created)
    && (forall j :: 0 <= j < k && cs[j].author.name == name ==> cs[j].created < cs[k].created)
  }

  /** Index of the comment that a left-to-right scan keeps as "last": the
      first comment by `name`, replaced by every later comment by `name`
      that is strictly after it. */
  function LatestIndex(cs: seq<JiraComment>, name: string): (r: Option<nat>)
    ensures r.Some? ==> r.value < |cs| && cs[r.value].author.name == name
  {
    if cs == [] then None
    else
      var k := |cs| - 1;
      var prev := LatestIndex(cs[..k], name);
      if cs[k].author.name != name then prev
      else if prev.None? || cs[k].created > cs[prev.value].created then Some(k)
      else prev
  }

  /** The scan finds nothing exactly when no comment is by `name`; otherwise
      it finds the latest one, and of several equally late ones the first. */
  lemma {:induction false} LatestIndexIsLatest(cs: seq<JiraComment>, name: string)
    ensures LatestIndex(cs, name).None? <==> forall j :: 0 <= j < |cs| ==> cs[j].author.name != name
    ensures LatestIndex(cs, name).Some? ==> IsLatest(cs, name, LatestIndex(cs, name).value)
  {
    if cs != [] {
      var k := |cs| - 1;
      var init := cs[..k];
      LatestIndexIsLatest(init, name);
      assert forall j :: 0 <= j < k ==> init[j] == cs[j];
    }
  }

  /** At most one index is a latest comment. */
  lemma IsLatestUnique(cs: seq<JiraComment>, name: string, k1: nat, k2: nat)
    requires IsLatest(cs, name, k1) && IsLatest(cs, name, k2)
    ensures k1 == k2
  {
  }

  /** The scan's answer is characterised by IsLatest alone. */
  lemma LatestIndexCharacterised(cs: seq<JiraComment>, name: string, k: nat)
    ensures LatestIndex(cs, name) == Some(k) <==> IsLatest(cs, name, k)
  {
    LatestIndexIsLatest(cs, name);
    if IsLatest(cs, name, k) {
      assert cs[k].author.name == name;
      IsLatestUnique(cs, name, k, LatestIndex(cs, name).value);
    }
  }

  /** The body the last-comment lookup returns: the latest comment's body,
      or "" when the account wrote nothing on the ticket. */
  function LastCommentBody(cs: seq<JiraComment>, name: string): string
  {
    match LatestIndex(cs, name)
    case None => ""
    case Some(k) => cs[k].body
  }

  /** What LastCommentBody means, stated without the scan. */
  lemma LastCommentBodyMeaning(cs: seq<JiraComment>, name: string)
    ensures (forall j :: 0 <= j < |cs| ==> cs[j].author.name != name) ==> LastCommentBody(cs, name) == ""
    ensures (exists j :: 0 <= j < |cs| && cs[j].author.name == name) ==>
              exists k: nat :: IsLatest(cs, name, k) && LastCommentBody(cs, name) == cs[k].body
  {
    LatestIndexIsLatest(cs, name);
  }

  function FetchFailed(ticketId: string): string
  {
    "failed to get ticket " + ticketId + " from Jira"
  }

  class JiraClient {
    /** The ticket the issue tracker answers with for each ticket id; an id
        that is not a key stands for a failed request (transport error,
        non-success status or undecodable body). */
    const server: map<string, JiraTicket>
    /** The ticket ids requested so far, in order. */
    var requested: seq<string>

    constructor (server: map<string, JiraTicket>)
      ensures this.server == server && requested == []
    {
      this.server := server;
      requested := [];
    }

    /** Stands for the HTTP request for one ticket with its comments. */
    method GetTicket(ticketId: string) returns (r: Result<JiraTicket>)
      modifies this`requested
      ensures requested == old(requested) + [ticketId]
      ensures r == if ticketId in server then Ok(server[ticketId]) else Err(FetchFailed(ticketId))
    {
      requested := requested + [ticketId];
      if ticketId in server {
        r := Ok(server[ticketId]);
      } else {
        r := Err(FetchFailed(ticketId));
      }
    }

    /** Collects the bodies of the comments whose author's display name is
        `displayName`. Never fails. */
    method GetCommentsByUser(ticket: JiraTicket, displayName: string) returns (userComments: seq<string>, err: Option<string>)
      ensures err == None
      ensures userComments == CommentsBy(CommentsOf(ticket), displayName)
      ensures forall b :: b in userComments <==>
                exists k :: 0 <= k < |CommentsOf(ticket)| && CommentsOf(ticket)[k].author.displayName == displayName
                            && CommentsOf(ticket)[k].body == b
    {
      var cs := CommentsOf(ticket);
      userComments := [];
      var i := 0;
      while i < |cs|
        invariant 0 <= i <= |cs|
        invariant userComments == CommentsBy(cs[..i], displayName)
      {
        assert cs[..i + 1][..i] == cs[..i];
        if cs[i].author.displayName == displayName {
          userComments := userComments + [cs[i].body];
        }
        i := i + 1;
      }
      assert cs[..i] == cs;
      forall b ensures b in userComments <==>
          exists k :: 0 <= k < |cs| && cs[k].author.displayName == displayName && cs[k].body == b
      {
        CommentsByMembership(cs, displayName, b);
      }
      err := None;
    }

    /** Finds the body of the latest comment whose author's account name is
        `name`, keeping the earlier of two equally late comments; "" when
        there is none. Never fails. */
    method GetLastCommentByUser(ticket: JiraTicket, name: string) returns (lastComment: string, err: Option<string>)
      ensures err == None
      ensures lastComment == LastCommentBody(CommentsOf(ticket), name)
      ensures (forall j :: 0 <= j < |CommentsOf(ticket)| ==> CommentsOf(ticket)[j].author.name != name) ==> lastComment == ""
      ensures (exists j :: 0 <= j < |CommentsOf(ticket)| && CommentsOf(ticket)[j].author.name == name) ==>
                exists k: nat :: IsLatest(CommentsOf(ticket), name, k) && lastComment == CommentsOf(ticket)[k].body
    {
      var cs := CommentsOf(ticket);
      var last: Option<nat> := None;
      var i := 0;
      while i < |cs|
        invariant 0 <= i <= |cs|
        invariant last == LatestIndex(cs[..i], name)
      {
        assert cs[..i + 1][..i] == cs[..i];
        if cs[i].author.name == name {
          if last.None? || cs[i].created > cs[last.value].created {
            last := Some(i);
          }
        }
        i := i + 1;
      }
      assert cs[..i] == cs;
      LastCommentBodyMeaning(cs, name);
      err := None;
      if last.None? {
        return "", err;
      }
      lastComment := cs[last.value].body;
    }
  }
}
