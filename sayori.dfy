/** The client of the assignment service ("Sayori"): the list of assignment
    records it answers with, and the search for one record by ticket id. */
module Sayori {
  import opened Models

  /** Index of the first record in `tickets` whose ticket id is `ticketId`,
      or None when there is none. */
  function FirstIndexWithId(tickets: seq<SayoriResponse>, ticketId: string): (r: Option<nat>)
    ensures r.Some? ==> r.value < |tickets| && tickets[r.value].ticketId == ticketId
    ensures r.Some? ==> forall j :: 0 <= j < r.value ==> tickets[j].ticketId != ticketId
    ensures r.None? ==> forall j :: 0 <= j < |tickets| ==> tickets[j].ticketId != ticketId
  {
    if tickets == [] then None
    else if tickets[0].ticketId == ticketId then Some(0)
    else match FirstIndexWithId(tickets[1..], ticketId)
      case None => None
      case Some(k) => Some(k + 1)
  }

  function NotFound(ticketId: string): string
  {
    "ticket with ID " + ticketId + " not found"
  }

  class SayoriClient {
    /** What the assignment service answers to a request for all tickets:
        the decoded record list, or the transport/status/decoding error. */
    const answer: Result<seq<SayoriResponse>>

    constructor (answer: Result<seq<SayoriResponse>>)
      ensures this.answer == answer
    {
      this.answer := answer;
    }

    /** Stands for the HTTP request for all tickets. */
    method GetTickets() returns (r: Result<seq<SayoriResponse>>)
      ensures r == answer
    {
      r := answer;
    }

    /** Searches the list for the first record with the given ticket id.
        The list is a value: the search cannot change it. */
    method FindTicket(tickets: seq<SayoriResponse>, ticketId: string) returns (r: Result<SayoriResponse>)
      ensures r.Ok? <==> exists k :: 0 <= k < |tickets| && tickets[k].ticketId == ticketId
      ensures r.Ok? ==> r.value.ticketId == ticketId
      ensures r.Ok? ==> exists k :: 0 <= k < |tickets| && tickets[k] == r.value
                                 && forall j :: 0 <= j < k ==> tickets[j].ticketId != ticketId
      ensures r.Err? ==> r.message == NotFound(ticketId)
      ensures match FirstIndexWithId(tickets, ticketId)
                case Some(k) => r == Ok(tickets[k])
                case None => r.Err?
    {
      var i := 0;
      while i < |tickets|
        invariant 0 <= i <= |tickets|
        invariant forall j :: 0 <= j < i ==> tickets[j].ticketId != ticketId
      {
        if tickets[i].ticketId == ticketId {
          assert FirstIndexWithId(tickets, ticketId) == Some(i);
          return Ok(tickets[i]);
        }
        i := i + 1;
      }
      r := Err(NotFound(ticketId));
    }
  }
}
