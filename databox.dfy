/** databox_integration/inte.py: gather SLO values from Datadog and view
    counts from Zendesk, and shape them into the record lists pushed to
    Databox. Every request is abstracted as the answer it returned; reading
    files, the environment and the command line is replaced by the values
    they produced. */
module Databox {
  import opened Wrappers
  import opened Text
  import Tally
  import Base64
  import DateFormat

  // ---------------------------------------------------------------- metric names

  /** `multireplace`: spaces become underscores, then `[` and `]` are removed. */
  function Multireplace(s: string): string
  {
    Replace(Replace(Replace(s, " ", "_"), "[", ""), "]", "")
  }

  /** What the three replacements do to one character. */
  function EditChar(c: char): string
  {
    if c == ' ' then "_" else if c == '[' || c == ']' then "" else [c]
  }

  /** A character-by-character reference for `multireplace`. */
  function EditChars(s: string): string
  {
    if s == [] then "" else EditChars(s[..|s| - 1]) + EditChar(s[|s| - 1])
  }

  /** The three chained replacements act on each character independently. */
  lemma {:induction false} MultireplaceCharwise(s: string)
    ensures Multireplace(s) == EditChars(s)
    decreases |s|
  {
    if s != [] {
      var init, c := s[..|s| - 1], s[|s| - 1];
      assert s == init + [c];
      MultireplaceCharwise(init);
      ReplaceCharSplit(init, [c], ' ', "_");
      var a1, b1 := Replace(init, " ", "_"), Replace([c], " ", "_");
      ReplaceCharSplit(a1, b1, '[', "");
      var a2, b2 := Replace(a1, "[", ""), Replace(b1, "[", "");
      ReplaceCharSplit(a2, b2, ']', "");
    }
  }

  /** Every character of the result is an underscore or a character of the
      input other than a space or a bracket. */
  lemma {:induction false} EditCharsFrom(s: string)
    ensures forall c :: c in EditChars(s) ==> c == '_' || (c in s && c != ' ' && c != '[' && c != ']')
    decreases |s|
  {
    if s != [] {
      EditCharsFrom(s[..|s| - 1]);
      assert forall c :: c in s[..|s| - 1] ==> c in s;
    }
  }

  /** A name as `get_slo_value` builds it: no spaces, brackets or upper-case
      ASCII letters remain. */
  lemma MultireplaceClean(s: string)
    ensures forall c :: c in Multireplace(Lower(s)) ==> c != ' ' && c != '[' && c != ']' && !('A' <= c <= 'Z')
  {
    MultireplaceCharwise(Lower(s));
    EditCharsFrom(Lower(s));
  }

  // ---------------------------------------------------------------- Datadog

  /** The answer to one SLO history request: the `sli_value` and `name` of its
      `overall` section, or a connection or HTTP error. */
  datatype SloFetch = Fetched(sliValue: real, name: string) | FetchFailed

  /** `get_slo_value`: the value and the metric name, or `(0, "")` on error. */
  function SloSample(f: SloFetch): (real, string)
  {
    match f
    case Fetched(v, name) => (v, "$" + Multireplace(Lower(name)))
    case FetchFailed => (0.0, "")
  }

  /** The name is empty exactly for a failed request; otherwise it is `$`
      followed by the cleaned, lower-cased name. Either way it is not `date`,
      so it never collides with the timestamp field of its record. */
  lemma SloSampleName(f: SloFetch)
    ensures SloSample(f).1 == "" <==> f.FetchFailed?
    ensures f.FetchFailed? ==> SloSample(f).0 == 0.0
    ensures f.Fetched? ==>
      && SloSample(f).1[0] == '$'
      && forall c :: c in SloSample(f).1[1..] ==> c != ' ' && c != '[' && c != ']' && !('A' <= c <= 'Z')
    ensures SloSample(f).1 != "date"
  {
    if f.Fetched? {
      MultireplaceClean(f.name);
      assert SloSample(f).1[1..] == Multireplace(Lower(f.name));
    }
  }

  /** `get_slo_id`: one id per line of the file, surrounding whitespace
      removed (what that leaves is `Text.StripSlice`); blank lines give
      empty ids, which are still requested. */
  method GetSloIds(lines: seq<string>) returns (ids: seq<string>)
    ensures |ids| == |lines|
    ensures forall i :: 0 <= i < |lines| ==> ids[i] == Strip(lines[i])
  {
    ids := [];
    var i := 0;
    while i < |lines|
      invariant 0 <= i <= |lines| && |ids| == i
      invariant forall j :: 0 <= j < i ==> ids[j] == Strip(lines[j])
    {
      ids := ids + [Strip(lines[i])];
      i := i + 1;
    }
  }

  /** One entry of a `data` list pushed to Databox: `{"date": date, key: value}`. */
  datatype Record<V> = Record(date: string, key: string, value: V)

  /** The Datadog loop of `main`: one record per id, in file order, all with
      the same timestamp; `fetches(i)` is the answer to the `i`-th request. */
  method DatadogData(ids: seq<string>, fetches: nat -> SloFetch, date: string) returns (data: seq<Record<real>>)
    ensures |data| == |ids|
    ensures forall i :: 0 <= i < |ids| ==>
      data[i] == Record(date, SloSample(fetches(i)).1, SloSample(fetches(i)).0)
    ensures forall i :: 0 <= i < |data| ==> data[i].date == date && data[i].key != "date"
  {
    data := [];
    var i := 0;
    while i < |ids|
      invariant 0 <= i <= |ids| && |data| == i
      invariant forall j :: 0 <= j < i ==>
        data[j] == Record(date, SloSample(fetches(j)).1, SloSample(fetches(j)).0)
      invariant forall j :: 0 <= j < i ==> data[j].key != "date"
    {
      var (value, name) := SloSample(fetches(i));
      SloSampleName(fetches(i));
      data := data + [Record(date, name, value)];
      i := i + 1;
    }
  }

  // ---------------------------------------------------------------- Zendesk polling

  /** The `view_count` object of a preview answer; a missing `fresh` reads as
      false, a missing `value` as None. */
  datatype ViewCount = ViewCount(isFresh: bool, value: Option<int>)

  /** What `zendesk_preview` returned: an empty dict (a failed request or an
      empty JSON object) or a non-empty one, with or without `view_count`. */
  datatype Response = Empty | Body(viewCount: Option<ViewCount>)

  /** The loop test `response.get("view_count", {}).get("fresh")`. */
  predicate Fresh(r: Response)
  {
    r.Body? && r.viewCount.Some? && r.viewCount.value.isFresh
  }

  /** `server(v, a)` is the answer to attempt `a` of the preview of view `v`. */
  type Server = (nat, nat) -> Response

  /** The polling of one view from attempt `n` on: the number of requests made
      and the response kept. The fourth attempt is the last. */
  function PollFrom(server: Server, view: nat, n: nat): (nat, Response)
    requires n <= 3
    decreases 3 - n
  {
    if n == 3 || Fresh(server(view, n)) then (n + 1, server(view, n))
    else PollFrom(server, view, n + 1)
  }

  function PollOutcome(server: Server, view: nat): (nat, Response)
  {
    PollFrom(server, view, 0)
  }

  /** The preview is requested until an answer is fresh, at most four times,
      and the last answer is kept whether it is fresh or not. */
  lemma {:induction false} PollFromSpec(server: Server, view: nat, n: nat)
    requires n <= 3
    ensures var (calls, last) := PollFrom(server, view, n);
      && n + 1 <= calls <= 4 && last == server(view, calls - 1)
      && (forall j :: n <= j < calls - 1 ==> !Fresh(server(view, j)))
      && (calls < 4 ==> Fresh(last))
    decreases 3 - n
  {
    if n < 3 && !Fresh(server(view, n)) {
      PollFromSpec(server, view, n + 1);
    }
  }

  /** The polling loop of `main` (lines 229-237). */
  method Poll(server: Server, view: nat) returns (calls: nat, last: Response)
    ensures (calls, last) == PollOutcome(server, view)
    ensures 1 <= calls <= 4 && last == server(view, calls - 1)
    ensures forall j :: 0 <= j < calls - 1 ==> !Fresh(server(view, j))
    ensures calls < 4 ==> Fresh(last)
  {
    PollFromSpec(server, view, 0);
    last := Empty;
    var count := 0;
    calls := 0;
    while !Fresh(last)
      invariant count == calls <= 3
      invariant calls == 0 ==> last == Empty
      invariant calls > 0 ==> last == server(view, calls - 1)
      invariant forall j :: 0 <= j < calls - 1 ==> !Fresh(server(view, j))
      invariant calls > 0 && !Fresh(last) ==> PollOutcome(server, view) == PollFrom(server, view, calls)
      invariant calls > 0 && Fresh(last) ==> PollOutcome(server, view) == (calls, last)
      decreases 4 - calls
    {
      ghost var before := calls;
      last := server(view, calls);
      calls := calls + 1;
      if count < 3 {
        count := count + 1;
      } else {
        assert PollOutcome(server, view) == PollFrom(server, view, 3);
        return;
      }
    }
  }

  // ---------------------------------------------------------------- Zendesk totals

  /** An entry of the Zendesk JSON file: its key and its `databox_name`, if
      present. */
  datatype ViewDef = ViewDef(key: string, databoxName: Option<string>)

  /** What the kept response contributes: a count under a Databox name, a
      logged failure for an empty response, or a `KeyError` where a field
      that is read is missing. */
  datatype ViewOutcome = Counted(name: string, value: int) | Failed | Broken

  function Outcome(v: ViewDef, last: Response): ViewOutcome
  {
    match last
    case Empty => Failed
    case Body(vc) =>
      if v.databoxName.None? || vc.None? || vc.value.value.None? then Broken
      else Counted(v.databoxName.value, vc.value.value.value)
  }

  /** Lines 239-242: add to a total that is truthy, otherwise assign. */
  function Merge(d: seq<Tally.Entry>, name: string, value: int): seq<Tally.Entry>
  {
    match Tally.Get(d, name)
    case Some(x) => if x != 0 then Tally.Put(d, name, x + value) else Tally.Put(d, name, value)
    case None => Tally.Put(d, name, value)
  }

  /** The truthiness test only differs from a membership test on a total of
      zero, where adding and assigning agree: the merge is a plain sum. */
  lemma MergeIsAddTo(d: seq<Tally.Entry>, name: string, value: int)
    ensures Merge(d, name, value) == Tally.AddTo(d, name, value)
  {
  }

  /** The Databox totals and the keys of the views whose preview failed. */
  datatype Totals = Totals(results: seq<Tally.Entry>, failed: seq<string>)

  /** One pass of the view loop. */
  function Step(t: Result<Totals>, v: ViewDef, last: Response): Result<Totals>
  {
    match t
    case Err(e) => Err(e)
    case Ok(Totals(results, failed)) =>
      match Outcome(v, last)
      case Counted(name, value) => Ok(Totals(Merge(results, name, value), failed))
      case Failed => Ok(Totals(results, failed + [v.key]))
      case Broken => Err("KeyError")
  }

  /** The state after the view loop, given each view's kept response. */
  function Aggregate(views: seq<ViewDef>, lasts: seq<Response>): Result<Totals>
    requires |views| == |lasts|
  {
    if views == [] then Ok(Totals([], []))
    else
      var n := |views| - 1;
      Step(Aggregate(views[..n], lasts[..n]), views[n], lasts[n])
  }

  /** The kept response of each of the first `n` views. */
  function Lasts(server: Server, n: nat): (r: seq<Response>)
    ensures |r| == n
  {
    seq(n, i requires 0 <= i < n => PollOutcome(server, i).1)
  }

  /** The view loop of `main` (lines 228-244). */
  method ZendeskResults(views: seq<ViewDef>, server: Server) returns (r: Result<Totals>)
    ensures r == Aggregate(views, Lasts(server, |views|))
  {
    var results: seq<Tally.Entry> := [];
    var failed: seq<string> := [];
    var i := 0;
    while i < |views|
      invariant 0 <= i <= |views|
      invariant Aggregate(views[..i], Lasts(server, i)) == Ok(Totals(results, failed))
    {
      var calls, last := Poll(server, i);
      assert views[..i + 1][..i] == views[..i];
      assert Lasts(server, i + 1)[..i] == Lasts(server, i);
      match Outcome(views[i], last) {
        case Counted(name, value) =>
          results := Merge(results, name, value);
        case Failed =>
          failed := failed + [views[i].key];
        case Broken =>
          AggregateErrSticks(views, Lasts(server, |views|), i + 1);
          assert views[..i + 1] == views[..i + 1] && Lasts(server, |views|)[..i + 1] == Lasts(server, i + 1);
          return Err("KeyError");
      }
      i := i + 1;
    }
    assert views[..i] == views;
    r := Ok(Totals(results, failed));
  }

  /** Once a view has raised, the views after it do not run. */
  lemma {:induction false} AggregateErrSticks(views: seq<ViewDef>, lasts: seq<Response>, n: nat)
    requires |views| == |lasts| && n <= |views|
    requires Aggregate(views[..n], lasts[..n]).Err?
    ensures Aggregate(views, lasts) == Aggregate(views[..n], lasts[..n])
    decreases |views| - n
  {
    if n < |views| {
      var m := |views| - 1;
      assert views[..n] == views[..m][..n] && lasts[..n] == lasts[..m][..n];
      AggregateErrSticks(views[..m], lasts[..m], n);
    } else {
      assert views[..n] == views && lasts[..n] == lasts;
    }
  }

  /** The outcome of each view. */
  function Outcomes(views: seq<ViewDef>, lasts: seq<Response>): (r: seq<ViewOutcome>)
    requires |views| == |lasts|
    ensures |r| == |views|
  {
    seq(|views|, i requires 0 <= i < |views| => Outcome(views[i], lasts[i]))
  }

  /** The counts in view order, each under its Databox name. */
  function Contributions(outs: seq<ViewOutcome>): seq<Tally.Entry>
  {
    if outs == [] then []
    else
      var o := outs[|outs| - 1];
      Contributions(outs[..|outs| - 1]) + (if o.Counted? then [(o.name, o.value)] else [])
  }

  /** The keys of the views whose preview came back empty, in view order. */
  function FailedKeys(views: seq<ViewDef>, outs: seq<ViewOutcome>): seq<string>
    requires |views| == |outs|
  {
    if views == [] then []
    else
      var n := |views| - 1;
      FailedKeys(views[..n], outs[..n]) + (if outs[n].Failed? then [views[n].key] else [])
  }

  /** The view loop raises exactly when some view is broken; otherwise its
      totals are the per-name sums of the counts, in order of first
      appearance, and the failed list names the views that came back empty. */
  lemma {:induction false} AggregateSpec(views: seq<ViewDef>, lasts: seq<Response>)
    requires |views| == |lasts|
    ensures var outs := Outcomes(views, lasts);
      Aggregate(views, lasts) ==
        if Broken in outs then Err("KeyError")
        else Ok(Totals(Tally.Accumulate(Contributions(outs)), FailedKeys(views, outs)))
    decreases |views|
  {
    if views != [] {
      var n := |views| - 1;
      var outs := Outcomes(views, lasts);
      AggregateSpec(views[..n], lasts[..n]);
      var pre := Outcomes(views[..n], lasts[..n]);
      assert pre == outs[..n];
      assert outs == pre + [outs[n]];
      var o := outs[n];
      assert o == Outcome(views[n], lasts[n]);
      assert (Broken in outs) == (Broken in pre || o == Broken);
      assert FailedKeys(views, outs) ==
        FailedKeys(views[..n], pre) + (if o.Failed? then [views[n].key] else []);
      if o.Counted? {
        var c := Contributions(pre);
        var x := (o.name, o.value);
        assert Contributions(outs) == c + [x];
        assert (c + [x])[..|c|] == c;
        assert Tally.Accumulate(c + [x]) == Tally.AddTo(Tally.Accumulate(c), o.name, o.value);
        MergeIsAddTo(Tally.Accumulate(c), o.name, o.value);
        if Broken !in pre {
          var failed := FailedKeys(views[..n], pre);
          assert Aggregate(views[..n], lasts[..n]) == Ok(Totals(Tally.Accumulate(c), failed));
          assert FailedKeys(views, outs) == failed + [] == failed;
        }
      } else {
        assert Contributions(outs) == Contributions(pre);
      }
    }
  }

  /** Each Databox name reads the sum of the counts of its views, whatever
      order they came in; names with no counted view are absent. */
  lemma ZendeskTotalsPerName(views: seq<ViewDef>, lasts: seq<Response>, name: string)
    requires |views| == |lasts| && Aggregate(views, lasts).Ok?
    ensures var es := Contributions(Outcomes(views, lasts));
      Tally.Get(Aggregate(views, lasts).value.results, name) ==
        if name in Tally.Keys(es) then Some(Tally.Total(es, name)) else None
  {
    AggregateSpec(views, lasts);
    Tally.AccumulateGet(Contributions(Outcomes(views, lasts)), name);
  }

  /** A view whose four answers are all stale still counts with its last
      value: here a fresh 10 and a stale 7 for the same name make 17. */
  lemma StaleResponseCounts()
    ensures var server: Server := (v, a) =>
              if v == 0 then Body(Some(ViewCount(true, Some(10))))
              else Body(Some(ViewCount(false, Some(7))));
            var views := [ViewDef("open", Some("tickets")), ViewDef("pending", Some("tickets"))];
            Aggregate(views, Lasts(server, 2)) == Ok(Totals([("tickets", 17)], []))
  {
    var server: Server := (v, a) =>
      if v == 0 then Body(Some(ViewCount(true, Some(10))))
      else Body(Some(ViewCount(false, Some(7))));
    var views := [ViewDef("open", Some("tickets")), ViewDef("pending", Some("tickets"))];
    PollFromSpec(server, 0, 0);
    PollFromSpec(server, 1, 0);
    var lasts := Lasts(server, 2);
    assert lasts == [Body(Some(ViewCount(true, Some(10)))), Body(Some(ViewCount(false, Some(7))))];
    assert views[..1] == [views[0]] && lasts[..1] == [lasts[0]];
    assert [views[0]][..0] == [] && [lasts[0]][..0] == [];
    assert Aggregate([views[0]], [lasts[0]]) == Ok(Totals([("tickets", 10)], []));
    assert Merge([("tickets", 10)], "tickets", 7) == [("tickets", 17)];
  }

  /** The loop at lines 245-246: one record per Databox name, in the order the
      names first appeared. */
  method ZendeskData(results: seq<Tally.Entry>, date: string) returns (data: seq<Record<int>>)
    ensures |data| == |results|
    ensures forall i :: 0 <= i < |results| ==> data[i] == Record(date, results[i].0, results[i].1)
  {
    data := [];
    var i := 0;
    while i < |results|
      invariant 0 <= i <= |results| && |data| == i
      invariant forall j :: 0 <= j < i ==> data[j] == Record(date, results[j].0, results[j].1)
    {
      data := data + [Record(date, results[i].0, results[i].1)];
      i := i + 1;
    }
  }

  // ---------------------------------------------------------------- authorization

  /** An f-string renders an unset environment variable as `None`. */
  function EnvText(v: Option<string>): string
  {
    match v
    case Some(s) => s
    case None => "None"
  }

  /** `f"{email}/token:{token}"`: an API-token user-id and password. */
  function Credentials(email: Option<string>, token: Option<string>): string
  {
    EnvText(email) + "/token:" + EnvText(token)
  }

  /** The `Authorization` header of `zendesk_preview`, or the
      `UnicodeEncodeError` the ASCII encoding raises. */
  function AuthHeader(email: Option<string>, token: Option<string>): Result<string>
  {
    match Base64.AsciiBytes(Credentials(email, token))
    case None => Err("UnicodeEncodeError")
    case Some(bs) => Ok("Basic " + Base64.Encode(bs))
  }

  /** The header is built exactly for ASCII credentials, and is then the Basic
      scheme of section 2 of RFC 7617: `Basic ` and a token that decodes back
      to the credentials. */
  lemma AuthHeaderDecodes(email: Option<string>, token: Option<string>)
    ensures var c := Credentials(email, token);
      AuthHeader(email, token).Ok? <==> forall i :: 0 <= i < |c| ==> c[i] as int < 128
    ensures var c := Credentials(email, token);
      AuthHeader(email, token).Ok? ==>
        && StartsWith(AuthHeader(email, token).value, "Basic ")
        && Base64.Decode(AuthHeader(email, token).value[6..]) == Base64.AsciiBytes(c)
        && Base64.AsciiText(Base64.AsciiBytes(c).value) == c
  {
    var c := Credentials(email, token);
    var bs := Base64.AsciiBytes(c);
    if bs.Some? {
      Base64.EncodeDecode(bs.value);
      Base64.AsciiRoundTrip(c);
      assert AuthHeader(email, token).value[6..] == Base64.Encode(bs.value);
    }
  }

  // ---------------------------------------------------------------- main

  /** The Zendesk part of `main` (lines 223-246): the records of the view
      totals, or the error that ends the script. The `Authorization` header
      is built on the first preview request, so it can only fail if there is
      a view. */
  method ZendeskSection(views: seq<ViewDef>, server: Server, email: Option<string>, token: Option<string>,
                        date: string)
    returns (r: Result<seq<Record<int>>>)
    ensures views != [] && AuthHeader(email, token).Err? ==> r == Err("UnicodeEncodeError")
    ensures (views == [] || AuthHeader(email, token).Ok?) && Aggregate(views, Lasts(server, |views|)).Err? ==>
      r == Err("KeyError")
    ensures (views == [] || AuthHeader(email, token).Ok?) && Aggregate(views, Lasts(server, |views|)).Ok? ==> r.Ok?
    ensures r.Ok? ==> Aggregate(views, Lasts(server, |views|)).Ok?
    ensures r.Ok? ==> ZendeskRecordsOf(r.value, Aggregate(views, Lasts(server, |views|)).value.results, date)
  {
    if views != [] && AuthHeader(email, token).Err? {
      return Err("UnicodeEncodeError");
    }
    var totals := ZendeskResults(views, server);
    if totals.Err? {
      AggregateErrIsKeyError(views, Lasts(server, |views|));
      return Err(totals.error);
    }
    var data := ZendeskData(totals.value.results, date);
    r := Ok(data);
  }

  /** The records are the totals, one per name, in order, each with `date`. */
  predicate ZendeskRecordsOf(data: seq<Record<int>>, results: seq<Tally.Entry>, date: string)
  {
    |data| == |results| && forall i :: 0 <= i < |results| ==> data[i] == Record(date, results[i].0, results[i].1)
  }

  /** The only error the view loop raises is `KeyError`. */
  lemma {:induction false} AggregateErrIsKeyError(views: seq<ViewDef>, lasts: seq<Response>)
    requires |views| == |lasts|
    ensures Aggregate(views, lasts).Err? ==> Aggregate(views, lasts).error == "KeyError"
    decreases |views|
  {
    if views != [] {
      AggregateErrIsKeyError(views[..|views| - 1], lasts[..|lasts| - 1]);
    }
  }

  /** The two payloads `main` prints and pushes, for the sources enabled. */
  datatype PostData = PostData(datadog: Option<seq<Record<real>>>, zendesk: Option<seq<Record<int>>>)

  /** `main` up to the pushes: `lines` is the ids file, `fetches` the SLO
      answers, `views` the Zendesk JSON file, `server` the preview answers and
      `today` the UTC time it started. Every record carries the same
      timestamp. */
  method CollectPostData(datadog: bool, zendesk: bool, lines: seq<string>, fetches: nat -> SloFetch,
                         views: seq<ViewDef>, server: Server, email: Option<string>, token: Option<string>,
                         today: DateFormat.DateTime)
    returns (r: Result<PostData>)
    requires DateFormat.Valid(today)
    ensures !zendesk ==> r.Ok?
    ensures zendesk && views != [] && AuthHeader(email, token).Err? ==> r == Err("UnicodeEncodeError")
    ensures zendesk && (views == [] || AuthHeader(email, token).Ok?) && Aggregate(views, Lasts(server, |views|)).Err? ==>
      r == Err("KeyError")
    ensures zendesk && (views == [] || AuthHeader(email, token).Ok?) && Aggregate(views, Lasts(server, |views|)).Ok? ==>
      r.Ok?
    ensures r.Ok? ==> (r.value.datadog.Some? <==> datadog) && (r.value.zendesk.Some? <==> zendesk)
    ensures r.Ok? && datadog ==>
      && |r.value.datadog.value| == |lines|
      && forall i :: 0 <= i < |lines| ==>
           r.value.datadog.value[i] == Record(DateFormat.Format(today), SloSample(fetches(i)).1, SloSample(fetches(i)).0)
    ensures r.Ok? && zendesk ==>
      && Aggregate(views, Lasts(server, |views|)).Ok?
      && ZendeskRecordsOf(r.value.zendesk.value, Aggregate(views, Lasts(server, |views|)).value.results,
                          DateFormat.Format(today))
  {
    var date := DateFormat.Format(today);
    var dd: Option<seq<Record<real>>> := None;
    var zd: Option<seq<Record<int>>> := None;
    if datadog {
      var ids := GetSloIds(lines);
      var data := DatadogData(ids, fetches, date);
      dd := Some(data);
    }
    if zendesk {
      var section := ZendeskSection(views, server, email, token, date);
      if section.Err? {
        return Err(section.error);
      }
      zd := Some(section.value);
    }
    r := Ok(PostData(dd, zd));
  }
}
