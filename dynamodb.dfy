/** The key-value store the service writes results to. Only what the write
    stores is modelled; table creation, the client configuration and the
    write timestamps are not. */
module Dynamo {
  import opened Models

  /** One stored item: partition key, sort key and comment. */
  datatype StoredItem = StoredItem(pk: string, sk: string, comments: string)

  function PutFailed(message: string): string
  {
    "failed to put item in DynamoDB: " + message
  }

  class DynamoDBClient {
    /** The error the store answers every write with, if any. */
    const failure: Option<string>
    /** The items written so far, in order. */
    var items: seq<StoredItem>

    constructor (failure: Option<string>)
      ensures this.failure == failure && items == []
    {
      this.failure := failure;
      items := [];
    }

    /** Stands for the write of one item. */
    method PutTicketCommentsInDynammo(userBot: string, ticket: string, description: string) returns (err: Option<string>)
      modifies this`items
      ensures failure.None? ==> err == None && items == old(items) + [StoredItem(userBot, ticket, description)]
      ensures failure.Some? ==> err == Some(PutFailed(failure.value)) && items == old(items)
    {
      if failure.Some? {
        return Some(PutFailed(failure.value));
      }
      items := items + [StoredItem(userBot, ticket, description)];
      err := None;
    }
  }
}
