/** Cursor pagination of a Slack listing endpoint, as both Slack scripts'
    `create_list` do it: call `slack_get` once without a cursor, then again with
    the returned cursor for as long as that cursor is non-empty, concatenating
    the pages. The server is abstracted as the finite sequence of answers it
    gives to those calls, in order. */
module Paging {
  import opened Wrappers
  import Seqs

  /** What one request produced: the request raised (timeout, too many
      redirects, another request error), which `slack_get` catches and
      reports, or an HTTP response, already decoded from JSON; the `records`
      and `nextCursor` of a response are read only when its status is 200. */
  datatype Answer<R> = Raised | Response(status: int, records: seq<R>, nextCursor: string)

  /** The message of the exception `slack_get` raises when `next_cursor` was
      never assigned. */
  const UnboundCursor := "UnboundLocalError: next_cursor"

  predicate IsPage<R>(a: Answer<R>)
  {
    a.Response? && a.status == 200
  }

  /** `create_list` makes no request after this answer. */
  predicate Stops<R>(a: Answer<R>)
  {
    !IsPage(a) || a.nextCursor == ""
  }

  /** The listing ends within the answers given. */
  predicate Ends<R>(answers: seq<Answer<R>>)
  {
    exists i :: 0 <= i < |answers| && Stops(answers[i])
  }

  /** One call of `slack_get`: the converted page and the next cursor, or
      None where it raises. */
  function Fetch<R, T>(a: Answer<R>, convert: R -> Option<T>): Option<(seq<T>, string)>
  {
    if IsPage(a) then Some((Seqs.FilterMap(a.records, convert), a.nextCursor)) else None
  }

  function Prepend<T>(xs: seq<T>, r: Result<seq<T>>): Result<seq<T>>
  {
    match r
    case Ok(ys) => Ok(xs + ys)
    case Err(e) => Err(e)
  }

  lemma EndsTail<R>(answers: seq<Answer<R>>)
    requires Ends(answers) && !Stops(answers[0])
    ensures Ends(answers[1..])
  {
    var i :| 0 <= i < |answers| && Stops(answers[i]);
    assert answers[1..][i - 1] == answers[i];
  }

  /** What `create_list` returns, or the error it raises. */
  function Listing<R, T>(answers: seq<Answer<R>>, convert: R -> Option<T>): Result<seq<T>>
    requires Ends(answers)
    decreases |answers|
  {
    match Fetch(answers[0], convert)
    case None => Err(UnboundCursor)
    case Some((items, cursor)) =>
      if cursor == "" then Ok(items)
      else
        EndsTail(answers);
        Prepend(items, Listing(answers[1..], convert))
  }

  /** `Listing` unfolded at the first answer, with the tail still ending:
      the step the loop of `CreateList` takes. */
  lemma ListingStep<R, T>(answers: seq<Answer<R>>, convert: R -> Option<T>)
    requires Ends(answers)
    ensures Fetch(answers[0], convert).None? ==> Listing(answers, convert) == Err(UnboundCursor)
    ensures Fetch(answers[0], convert).Some? && Fetch(answers[0], convert).value.1 == "" ==>
      Listing(answers, convert) == Ok(Fetch(answers[0], convert).value.0)
    ensures Fetch(answers[0], convert).Some? && Fetch(answers[0], convert).value.1 != "" ==>
      Ends(answers[1..]) &&
      Listing(answers, convert) == Prepend(Fetch(answers[0], convert).value.0, Listing(answers[1..], convert))
  {
    if Fetch(answers[0], convert).Some? && Fetch(answers[0], convert).value.1 != "" {
      EndsTail(answers);
    }
  }

  lemma PrependTwice<T>(xs: seq<T>, ys: seq<T>, r: Result<seq<T>>)
    ensures Prepend(xs, Prepend(ys, r)) == Prepend(xs + ys, r)
  {
    if r.Ok? {
      assert xs + (ys + r.value) == (xs + ys) + r.value;
    }
  }

  /** `create_list` (slack_rename_emails/slack_rename.py:38-44,
      slack_rename_channels/slack.py:40-46). */
  method CreateList<R, T>(answers: seq<Answer<R>>, convert: R -> Option<T>) returns (r: Result<seq<T>>)
    requires Ends(answers)
    ensures r == Listing(answers, convert)
  {
    ListingStep(answers, convert);
    var page := Fetch(answers[0], convert);
    if page.None? {
      return Err(UnboundCursor);
    }
    var result := page.value.0;
    var shift := page.value.1;
    var i := 1;
    while shift != ""
      invariant 1 <= i <= |answers|
      invariant shift != "" ==> Ends(answers[i..])
      invariant Listing(answers, convert) ==
        if shift == "" then Ok(result) else Prepend(result, Listing(answers[i..], convert))
      decreases |answers| - i
    {
      ghost var rest := answers[i..];
      ListingStep(rest, convert);
      assert rest[1..] == answers[i + 1..];
      page := Fetch(answers[i], convert);
      if page.None? {
        return Err(UnboundCursor);
      }
      if page.value.1 != "" {
        PrependTwice(result, page.value.0, Listing(answers[i + 1..], convert));
      }
      result := result + page.value.0;
      shift := page.value.1;
      i := i + 1;
    }
    r := Ok(result);
  }

  // ---------------------------------------------------------------- closed form

  /** The index of the answer after which `create_list` stops. */
  function StopAt<R>(answers: seq<Answer<R>>): (n: nat)
    requires Ends(answers)
    ensures n < |answers| && Stops(answers[n])
    ensures forall j :: 0 <= j < n ==> !Stops(answers[j])
    decreases |answers|
  {
    if Stops(answers[0]) then 0
    else
      EndsTail(answers);
      var m := StopAt(answers[1..]);
      assert forall j :: 1 <= j < m + 1 ==> answers[j] == answers[1..][j - 1];
      m + 1
  }

  /** The converted records of the first `n` answers, concatenated. */
  function PagesUpTo<R, T>(answers: seq<Answer<R>>, n: nat, convert: R -> Option<T>): seq<T>
    requires n <= |answers|
  {
    if n == 0 then []
    else
      PagesUpTo(answers, n - 1, convert)
      + (if IsPage(answers[n - 1]) then Seqs.FilterMap(answers[n - 1].records, convert) else [])
  }

  lemma {:induction false} PagesUpToTail<R, T>(answers: seq<Answer<R>>, n: nat, convert: R -> Option<T>)
    requires 0 < n <= |answers|
    ensures PagesUpTo(answers, n, convert) ==
      (if IsPage(answers[0]) then Seqs.FilterMap(answers[0].records, convert) else [])
      + PagesUpTo(answers[1..], n - 1, convert)
  {
    if n > 1 {
      PagesUpToTail(answers, n - 1, convert);
      assert answers[n - 1] == answers[1..][n - 2];
    }
  }

  /** The listing succeeds exactly when the answer it stops at is a page, and
      then it is the concatenation of all pages up to and including that one,
      in request order. */
  lemma {:induction false} ListingClosedForm<R, T>(answers: seq<Answer<R>>, convert: R -> Option<T>)
    requires Ends(answers)
    ensures Listing(answers, convert).Ok? <==> IsPage(answers[StopAt(answers)])
    ensures Listing(answers, convert).Ok? ==>
      Listing(answers, convert).value == PagesUpTo(answers, StopAt(answers) + 1, convert)
    decreases |answers|
  {
    PagesUpToTail(answers, StopAt(answers) + 1, convert);
    if !Stops(answers[0]) {
      EndsTail(answers);
      ListingClosedForm(answers[1..], convert);
      assert StopAt(answers) == StopAt(answers[1..]) + 1;
    }
  }

  /** Every element of the result is the conversion of a record of a page the
      listing fetched. */
  lemma {:induction false} PagesUpToMembers<R, T>(answers: seq<Answer<R>>, n: nat, convert: R -> Option<T>, t: T)
    requires n <= |answers| && t in PagesUpTo(answers, n, convert)
    ensures exists k :: 0 <= k < n && IsPage(answers[k]) && t in Seqs.FilterMap(answers[k].records, convert)
  {
    if t !in PagesUpTo(answers, n - 1, convert) {
      assert IsPage(answers[n - 1]) && t in Seqs.FilterMap(answers[n - 1].records, convert);
    } else {
      PagesUpToMembers(answers, n - 1, convert, t);
    }
  }

  lemma ListingMembers<R, T>(answers: seq<Answer<R>>, convert: R -> Option<T>, t: T)
    requires Ends(answers) && Listing(answers, convert).Ok? && t in Listing(answers, convert).value
    ensures exists k, x ::
              && 0 <= k <= StopAt(answers) && IsPage(answers[k])
              && x in answers[k].records && convert(x) == Some(t)
  {
    ListingClosedForm(answers, convert);
    PagesUpToMembers(answers, StopAt(answers) + 1, convert, t);
    var k :| 0 <= k < StopAt(answers) + 1 && IsPage(answers[k]) && t in Seqs.FilterMap(answers[k].records, convert);
    Seqs.FilterMapMembers(answers[k].records, convert);
  }
}
