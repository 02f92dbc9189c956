/**
 * The social-network side: the request body of `comment_for_post`, how it
 * reports the reply, and `eval_resp_vk`, the evaluator that tells the
 * retrying API client whether to post again.
 */
module VkApi {
  import opened Wrappers
  import opened Strings

  const ApiVersion := "5.131"
  /** Error codes worth another attempt. */
  const RetryErrorCodes: set<int> := {1, 6, 10}
  /** Error codes another attempt cannot fix. */
  const NeverRetryErrorCodes: set<int> := {5, 9, 29, 223}

  /**
   * The `error` object of a reply, by its `error_code` (`None` when missing or
   * not an integer) and its `error_msg`.
   */
  datatype ApiError = ApiError(code: Option<int>, message: Option<string>)

  /**
   * A reply that parsed as JSON, by its `error` member: `None` when there is
   * none or its value is falsy (`null`, `{}`).
   */
  datatype Reply = Reply(error: Option<ApiError>)

  predicate CodeIn(code: Option<int>, codes: set<int>) {
    code.Some? && code.value in codes
  }

  /**
   * `eval_resp_vk`; `reply` is `None` when the body is not JSON. `true`
   * accepts the response, `false` asks for another attempt.
   */
  function EvalReply(reply: Option<Reply>): bool {
    match reply
    case None => false
    case Some(data) =>
      match data.error
      case None => true
      case Some(error) =>
        if CodeIn(error.code, RetryErrorCodes) then false
        else CodeIn(error.code, NeverRetryErrorCodes)
  }

  /** The classification `eval_resp_vk` makes, case by case. */
  lemma EvalReplyCases(reply: Option<Reply>)
    ensures reply.None? ==> !EvalReply(reply)
    ensures reply.Some? && reply.value.error.None? ==> EvalReply(reply)
    ensures reply.Some? && reply.value.error.Some? ==>
              var code := reply.value.error.value.code;
              && (CodeIn(code, RetryErrorCodes) ==> !EvalReply(reply))
              && (CodeIn(code, NeverRetryErrorCodes) ==> EvalReply(reply))
              && (!CodeIn(code, RetryErrorCodes) && !CodeIn(code, NeverRetryErrorCodes) ==> !EvalReply(reply))
  {
  }

  /**
   * The two code sets are disjoint, so checking the never-retry set first
   * would classify every reply the same way.
   */
  lemma EvalReplyOrderIrrelevant(reply: Option<Reply>)
    ensures RetryErrorCodes !! NeverRetryErrorCodes
    ensures EvalReply(reply) ==
            match reply
            case None => false
            case Some(data) =>
              match data.error
              case None => true
              case Some(error) =>
                if CodeIn(error.code, NeverRetryErrorCodes) then true
                else if CodeIn(error.code, RetryErrorCodes) then false
                else false
  {
  }

  /** The form fields of one `wall.createComment` call. */
  datatype CommentRequest = CommentRequest(accessToken: string, ownerId: string, postId: string,
                                           message: string, v: string)

  /**
   * The body `comment_for_post` builds; `None` stands for the `ValueError` of
   * unpacking `post.split('_')` into two names.
   */
  function CommentBody(token: string, post: string, message: string): (r: Option<CommentRequest>)
    ensures r.Some? <==> Occurrences(post, '_') == 1
    ensures r.Some? ==>
              && r.value.ownerId + "_" + r.value.postId == post
              && '_' !in r.value.ownerId && '_' !in r.value.postId
              && r.value.accessToken == token && r.value.message == message
              && r.value.v == ApiVersion
  {
    var parts := Split(post, '_');
    SplitCount(post, '_');
    SplitJoin(post, '_');
    if |parts| != 2 then None
    else
      assert Join(parts, '_') == parts[0] + "_" + Join(parts[1..], '_');
      Some(CommentRequest(token, parts[0], parts[1], message, ApiVersion))
  }

  /** The owner and post ids of a well-formed target are the two sides of its `_`. */
  lemma CommentBodyOfTarget(token: string, owner: string, id: string, message: string)
    requires '_' !in owner && '_' !in id
    ensures CommentBody(token, owner + "_" + id, message)
            == Some(CommentRequest(token, owner, id, message, ApiVersion))
  {
    var post := owner + "_" + id;
    OccurrencesAppend(owner, "_" + id, '_');
    OccurrencesAppend("_", id, '_');
    OccurrencesAbsent(owner, '_');
    OccurrencesAbsent(id, '_');
    assert post == owner + ("_" + id);
    var r := CommentBody(token, post, message).value;
    SplitUnique(owner, id, r.ownerId, r.postId);
  }

  /** What the caller of `client.post` receives: a transport error, or a reply (`None` if not JSON). */
  datatype PostResult = TransportError | Received(reply: Option<Reply>)

  /** What `comment_for_post` reports for one comment. */
  datatype Outcome = Posted | TransportFailed | InvalidReply | Rejected(message: Option<string>)

  /** The reply handling of `comment_for_post`. */
  function CommentOutcome(result: PostResult): Outcome {
    match result
    case TransportError => TransportFailed
    case Received(None) => InvalidReply
    case Received(Some(data)) =>
      match data.error
      case None => Posted
      case Some(error) => Rejected(error.message)
  }

  /**
   * The retrying client stops on the reply the evaluator accepts: that reply is
   * a posted comment or a rejection with a never-retry code. A reply the
   * evaluator turns down, if it is the last, is never reported as posted.
   */
  lemma AcceptedReplyOutcome(reply: Option<Reply>)
    ensures EvalReply(reply) <==>
              CommentOutcome(Received(reply)) == Posted
              || (CommentOutcome(Received(reply)).Rejected?
                  && CodeIn(reply.value.error.value.code, NeverRetryErrorCodes))
    ensures CommentOutcome(Received(reply)) == Posted ==> EvalReply(reply)
  {
  }
}
