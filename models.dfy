/** Record shapes exchanged with the two ticket services, and the
    error-carrying result type used by every fallible operation. */
module Models {

  /** An instant. The source decodes timestamps with a multi-format parser
      that is not part of this model; only their total order matters here. */
  type Time = int

  /** A value or an error message, standing for Go's `(T, error)` pairs. */
  datatype Result<+T> = Ok(value: T) | Err(message: string)

  datatype Option<+T> = None | Some(value: T)

  /** The user a ticket is assigned to, as the assignment service reports it. */
  datatype BotUser = BotUser(
    userId: string,
    userName: string,
    project: string,
    picture: string,
    displayName: string)

  /** One assignment record of the assignment service ("Sayori").
      The floating-point estimate is not modelled. */
  datatype SayoriResponse = SayoriResponse(
    id: int,
    link: string,
    difficulty: int,
    ticketId: string,
    botUserId: string,
    ticketType: int,
    currentProject: string,
    comments: string,
    createDate: Time,
    ticketDate: Time,
    botUser: BotUser)

  /** A Jira account as it appears as the author of a comment. */
  datatype JiraUser = JiraUser(
    accountId: string,
    emailAddress: string,
    displayName: string,
    name: string,
    active: bool)

  datatype JiraComment = JiraComment(
    id: string,
    body: string,
    created: Time,
    updated: Time,
    author: JiraUser)

  /** The `comment` object of a Jira issue: a wrapper around the list. */
  datatype JiraCommentWrapper = JiraCommentWrapper(comments: seq<JiraComment>)

  datatype JiraFields = JiraFields(
    description: string,
    summary: string,
    comments: JiraCommentWrapper)

  datatype JiraTicket = JiraTicket(fields: JiraFields)

  /** The comments of a ticket, in the order Jira lists them. */
  function CommentsOf(ticket: JiraTicket): seq<JiraComment>
  {
    ticket.fields.comments.comments
  }
}
