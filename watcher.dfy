/** zendesk_watcher/watcher.py: find the open high-severity tickets that have
    gone too long without an update and post them to a Slack channel. The
    Zendesk search and the Slack webhook are abstracted as the tickets the
    search returned and the answers the posts got. */
module Watcher {
  import opened Wrappers
  import opened Text
  import DateFormat
  import Seqs

  /** A ticket custom field: its id and its value, None for JSON null. */
  datatype Field = Field(id: int, value: Option<string>)

  /** The ticket attributes the script reads. */
  datatype Ticket = Ticket(id: nat, subject: string, organization: Option<string>, updatedAt: string,
                           url: string, customFields: seq<Field>)

  /** The two thresholds and the id of the severity custom field. */
  datatype Config = Config(twoHoursAgo: DateFormat.DateTime, dayAgo: DateFormat.DateTime, sevFieldId: int)

  const SevFieldId := 58614488

  // ---------------------------------------------------------------- severity

  /** `list(filter(lambda field: field['id'] == id, fields))[0]['value']`:
      the value of the first field with the id, or the `IndexError` raised
      when there is none. */
  function Severity(fields: seq<Field>, id: int): (r: Result<Option<string>>)
    ensures r.Err? <==> forall i :: 0 <= i < |fields| ==> fields[i].id != id
    ensures r.Err? ==> r.error == "IndexError"
    ensures r.Ok? ==> exists i :: FirstWithId(fields, id, i) && fields[i].value == r.value
  {
    if fields == [] then Err("IndexError")
    else if fields[0].id == id then Ok(fields[0].value)
    else
      var r := Severity(fields[1..], id);
      if r.Ok? then
        var i :| FirstWithId(fields[1..], id, i) && fields[1..][i].value == r.value;
        assert fields[i + 1] == fields[1..][i];
        assert forall j :: 1 <= j < i + 1 ==> fields[j] == fields[1..][j - 1];
        r
      else
        assert forall i :: 1 <= i < |fields| ==> fields[i] == fields[1..][i - 1];
        r
  }

  /** Field `i` is the first with the id. */
  predicate FirstWithId(fields: seq<Field>, id: int, i: int)
  {
    0 <= i < |fields| && fields[i].id == id && forall j :: 0 <= j < i ==> fields[j].id != id
  }

  /** `datetime.strptime(s, '%Y-%m-%dT%H:%M:%SZ')`, or None where it raises
      `ValueError`, read on zero-padded fields with upper-case `T` and `Z`
      only: `strptime` also takes lower-case letters and unpadded or
      space-padded fields. */
  function ParseUpdatedAt(s: string): Option<DateFormat.DateTime>
  {
    if |s| == 20 && s[10] == 'T' && s[19] == 'Z' then DateFormat.Parse(s[..10] + " " + s[11..19])
    else None
  }

  /** `sla_breach`: 1 for a SEV-1 ticket not updated since two hours ago, 2
      for a SEV-2 ticket not updated since a day ago, 0 otherwise; a missing
      severity field raises before the date is read. */
  function SlaBreach(t: Ticket, cfg: Config): Result<int>
  {
    match Severity(t.customFields, cfg.sevFieldId)
    case Err(e) => Err(e)
    case Ok(sev) =>
      match ParseUpdatedAt(t.updatedAt)
      case None => Err("ValueError")
      case Some(last) =>
        if sev == Some("sev_1") && DateFormat.NotAfter(last, cfg.twoHoursAgo) then Ok(1)
        else if sev == Some("sev_2") && DateFormat.NotAfter(last, cfg.dayAgo) then Ok(2)
        else Ok(0)
  }

  /** The breach kinds, both ways: a ticket is 1 exactly when it is SEV-1 and
      its last update is no later than two hours ago, 2 exactly when it is
      SEV-2 and no later than a day ago; the severity is read before the
      date, so a ticket lacking both raises `IndexError`. */
  lemma SlaBreachSpec(t: Ticket, cfg: Config)
    ensures var sev := Severity(t.customFields, cfg.sevFieldId);
      sev.Err? ==> SlaBreach(t, cfg) == Err("IndexError")
    ensures var sev := Severity(t.customFields, cfg.sevFieldId);
      sev.Ok? && ParseUpdatedAt(t.updatedAt).None? ==> SlaBreach(t, cfg) == Err("ValueError")
    ensures Severity(t.customFields, cfg.sevFieldId).Ok? && ParseUpdatedAt(t.updatedAt).Some? ==>
      SlaBreach(t, cfg).Ok?
    ensures var r := SlaBreach(t, cfg);
      r.Ok? ==> 0 <= r.value <= 2
    ensures var r, sev, last := SlaBreach(t, cfg), Severity(t.customFields, cfg.sevFieldId), ParseUpdatedAt(t.updatedAt);
      r.Ok? ==>
        && (r.value == 1 <==> sev.value == Some("sev_1") && DateFormat.NotAfter(last.value, cfg.twoHoursAgo))
        && (r.value == 2 <==> sev.value == Some("sev_2") && DateFormat.NotAfter(last.value, cfg.dayAgo))
  {
  }

  /** A breach does not heal as time passes: with both thresholds moved later,
      a breaching ticket breaches in the same way. */
  lemma BreachPersists(t: Ticket, cfg: Config, later: Config)
    requires later.sevFieldId == cfg.sevFieldId
    requires DateFormat.NotAfter(cfg.twoHoursAgo, later.twoHoursAgo)
    requires DateFormat.NotAfter(cfg.dayAgo, later.dayAgo)
    requires SlaBreach(t, cfg).Ok? && SlaBreach(t, cfg).value != 0
    ensures SlaBreach(t, later) == SlaBreach(t, cfg)
  {
    var last := ParseUpdatedAt(t.updatedAt).value;
    if SlaBreach(t, cfg).value == 1 {
      DateFormat.NotAfterTransitive(last, cfg.twoHoursAgo, later.twoHoursAgo);
    } else {
      DateFormat.NotAfterTransitive(last, cfg.dayAgo, later.dayAgo);
    }
  }

  // ---------------------------------------------------------------- ticket line

  /** `zd_link`: the API path becomes the help-centre path, then every
      `.json` is removed. */
  function ZdLink(url: string): string
  {
    Replace(Replace(url, ApiPath, HcPath), JsonExt, "")
  }

  const ApiPath := "api/v2/tickets"
  const HcPath := "hc/requests"
  const JsonExt := ".json"

  /** An API ticket URL becomes the ticket's help-centre page, provided the
      host and the id hold neither an `a` nor a `j` (no other match can start
      there). */
  lemma ZdLinkOfApiUrl(base: string, id: string)
    requires 'a' !in base && 'a' !in id && 'j' !in base && 'j' !in id
    ensures ZdLink(base + ApiPath + "/" + id + JsonExt) == base + HcPath + "/" + id
  {
    var tail := "/" + id + JsonExt;
    assert base + ApiPath + "/" + id + JsonExt == base + ApiPath + tail;
    ApiStep(base, id, ApiPath, HcPath, JsonExt);
    var mid := base + HcPath + "/" + id;
    assert base + HcPath + tail == mid + JsonExt + "";
    assert 'j' !in mid by {
      forall i | 0 <= i < |mid| ensures mid[i] != 'j' {
        if i < |base| {
          assert mid[i] == base[i];
        } else if i < |base| + |HcPath| {
          assert mid[i] == HcPath[i - |base|];
        } else if i > |base| + |HcPath| {
          assert mid[i] == id[i - |base| - |HcPath| - 1];
        }
      }
    }
    JsonStep(mid, JsonExt);
  }

  /** The first replacement of `zd_link` rewrites the API path and nothing
      else. */
  lemma ApiStep(base: string, id: string, api: string, hc: string, json: string)
    requires api == "api/v2/tickets" && hc == "hc/requests" && json == ".json"
    requires 'a' !in base && 'a' !in id
    ensures Replace(base + api + ("/" + id + json), api, hc) == base + hc + ("/" + id + json)
  {
    var tail := "/" + id + json;
    assert api[0] == 'a';
    NoMatchInside(base, api, tail, 0);
    ReplaceAfter(base, api, tail, hc);
    assert 'a' !in tail by {
      forall i | 0 <= i < |tail| ensures tail[i] != 'a' {
        if 1 <= i <= |id| {
          assert tail[i] == id[i - 1];
        } else if i > |id| {
          assert tail[i] == json[i - 1 - |id|];
        }
      }
    }
    MissingCharMeansAbsent(tail, api, 0);
    ReplaceAbsent(tail, api, hc);
  }

  /** The second replacement of `zd_link` removes the final `.json` when
      nothing before it holds a `j`. */
  lemma JsonStep(mid: string, json: string)
    requires json == ".json" && 'j' !in mid
    ensures Replace(mid + json + "", json, "") == mid
  {
    NoMatchInside(mid, json, "", 1);
    ReplaceAfter(mid, json, "", "");
    assert mid + "" + "" == mid;
  }

  /** An f-string renders None as `None`. */
  function ValueText(v: Option<string>): string
  {
    match v
    case Some(s) => s
    case None => "None"
  }

  /** The six fields of the line, in order. */
  function LineFields(t: Ticket, sev: Option<string>): seq<string>
  {
    [Decimal(t.id), t.subject, if t.organization.Some? then t.organization.value else "Unknown org",
     "Updated: " + t.updatedAt, "Severity: " + ValueText(sev), "Link: " + ZdLink(t.url)]
  }

  /** `ticket_line`: the fields joined with ` | `, or the `IndexError` of a
      missing severity field. */
  function TicketLine(t: Ticket, cfg: Config): Result<string>
  {
    match Severity(t.customFields, cfg.sevFieldId)
    case Err(e) => Err(e)
    case Ok(sev) => Ok(Join(" | ", LineFields(t, sev)))
  }

  /** The line leads with the ticket number and, when no field holds a `|`,
      holds exactly five bars, one per separator; it exists exactly when
      the severity field does. */
  lemma TicketLineShape(t: Ticket, cfg: Config)
    ensures TicketLine(t, cfg).Ok? <==> Severity(t.customFields, cfg.sevFieldId).Ok?
    ensures TicketLine(t, cfg).Ok? ==> StartsWith(TicketLine(t, cfg).value, Decimal(t.id) + " | ")
    ensures TicketLine(t, cfg).Ok? && NoBars(LineFields(t, Severity(t.customFields, cfg.sevFieldId).value)) ==>
      multiset(TicketLine(t, cfg).value)['|'] == 5
  {
    var sev := Severity(t.customFields, cfg.sevFieldId);
    if sev.Ok? {
      var fields := LineFields(t, sev.value);
      assert TicketLine(t, cfg).value == Join(" | ", fields);
      JoinedShape(" | ", fields);
    }
  }

  /** Six fields joined with ` | `: the first field and a separator lead, and
      without bars inside the fields there are exactly five. */
  lemma JoinedShape(sep: string, fields: seq<string>)
    requires sep == " | " && |fields| == 6
    ensures StartsWith(Join(sep, fields), fields[0] + sep)
    ensures NoBars(fields) ==> multiset(Join(sep, fields))['|'] == 5
  {
    JoinFirst(sep, fields);
    if NoBars(fields) {
      JoinCount(sep, fields, '|');
      assert multiset(sep)['|'] == 1 by {
        assert sep == [' '] + ['|'] + [' '];
      }
    }
  }

  predicate NoBars(fields: seq<string>)
  {
    forall i :: 0 <= i < |fields| ==> '|' !in fields[i]
  }

  /** The line's third column is the organization's name, or `Unknown org`
      for a ticket without one. */
  lemma UnknownOrg(t: Ticket, cfg: Config)
    ensures t.organization.None? && TicketLine(t, cfg).Ok? ==>
      StartsWith(TicketLine(t, cfg).value, Decimal(t.id) + " | " + t.subject + " | Unknown org | ")
    ensures t.organization.Some? && TicketLine(t, cfg).Ok? ==>
      StartsWith(TicketLine(t, cfg).value, Decimal(t.id) + " | " + t.subject + " | " + t.organization.value + " | ")
  {
    var sev := Severity(t.customFields, cfg.sevFieldId);
    if sev.Ok? {
      var sep := " | ";
      var fields := LineFields(t, sev.value);
      var head := fields[0] + sep + fields[1] + sep + fields[2] + sep;
      JoinSplit(sep, fields, 3);
      JoinSplit(sep, fields[..3], 2);
      assert fields[..3][..2] == fields[..2] && fields[..3][2..] == [fields[2]];
      JoinSplit(sep, fields[..2], 1);
      assert fields[..2][..1] == [fields[0]] && fields[..2][1..] == [fields[1]];
      assert Join(sep, fields) == head + Join(sep, fields[3..]);
      assert Join(sep, fields)[..|head|] == head;
    }
  }

  // ---------------------------------------------------------------- partition

  /** The SEV-1 lines and the SEV-2 lines. */
  type Lists = (seq<string>, seq<string>)

  /** The two per-ticket calls of the loop, as values, so that the loop's
      laws are proved once for any classifier and line builder. */
  function Breach(cfg: Config): Ticket -> Result<int>
  {
    t => SlaBreach(t, cfg)
  }

  function Line(cfg: Config): Ticket -> Result<string>
  {
    t => TicketLine(t, cfg)
  }

  /** One pass of the loop: classify the ticket and, for kind 1 or 2, build
      its line and file it. */
  function StepBy(acc: Result<Lists>, t: Ticket, breach: Ticket -> Result<int>, line: Ticket -> Result<string>)
    : Result<Lists>
  {
    match acc
    case Err(e) => Err(e)
    case Ok((sev1, sev2)) =>
      match breach(t)
      case Err(e) => Err(e)
      case Ok(k) =>
        if k != 1 && k != 2 then Ok((sev1, sev2))
        else
          match line(t)
          case Err(e) => Err(e)
          case Ok(l) => if k == 1 then Ok((sev1 + [l], sev2)) else Ok((sev1, sev2 + [l]))
  }

  function ClassifyBy(tickets: seq<Ticket>, breach: Ticket -> Result<int>, line: Ticket -> Result<string>)
    : Result<Lists>
  {
    if tickets == [] then Ok(([], []))
    else
      var n := |tickets| - 1;
      StepBy(ClassifyBy(tickets[..n], breach, line), tickets[n], breach, line)
  }

  /** A ticket the loop gets past. */
  predicate Passes(t: Ticket, breach: Ticket -> Result<int>, line: Ticket -> Result<string>)
  {
    breach(t).Ok? && (breach(t).value == 1 || breach(t).value == 2 ==> line(t).Ok?)
  }

  /** The line of a ticket of the given kind. */
  function Pick(kind: int, breach: Ticket -> Result<int>, line: Ticket -> Result<string>): Ticket -> Option<string>
  {
    t => if breach(t) == Ok(kind) && line(t).Ok? then Some(line(t).value) else None
  }

  lemma {:induction false} ClassifyByOk(tickets: seq<Ticket>, breach: Ticket -> Result<int>, line: Ticket -> Result<string>)
    ensures ClassifyBy(tickets, breach, line).Ok? <==> forall i :: 0 <= i < |tickets| ==> Passes(tickets[i], breach, line)
    decreases |tickets|
  {
    if tickets != [] {
      var n := |tickets| - 1;
      ClassifyByOk(tickets[..n], breach, line);
      assert forall i :: 0 <= i < n ==> tickets[..n][i] == tickets[i];
    }
  }

  lemma {:induction false} ClassifyByLists(tickets: seq<Ticket>, breach: Ticket -> Result<int>, line: Ticket -> Result<string>)
    requires ClassifyBy(tickets, breach, line).Ok?
    ensures ClassifyBy(tickets, breach, line).value ==
      (Seqs.FilterMap(tickets, Pick(1, breach, line)), Seqs.FilterMap(tickets, Pick(2, breach, line)))
    decreases |tickets|
  {
    if tickets != [] {
      var n := |tickets| - 1;
      var t, pre := tickets[n], tickets[..n];
      ClassifyByLists(pre, breach, line);
      assert tickets == pre + [t];
      assert [t][1..] == [];
      Seqs.FilterMapAppend(pre, [t], Pick(1, breach, line));
      Seqs.FilterMapAppend(pre, [t], Pick(2, breach, line));
      assert Seqs.FilterMap([t], Pick(1, breach, line)) ==
        if breach(t) == Ok(1) && line(t).Ok? then [line(t).value] else [];
      assert Seqs.FilterMap([t], Pick(2, breach, line)) ==
        if breach(t) == Ok(2) && line(t).Ok? then [line(t).value] else [];
      var acc := ClassifyBy(pre, breach, line);
      assert ClassifyBy(tickets, breach, line) == StepBy(acc, t, breach, line);
      assert acc.Ok? && breach(t).Ok?;
      var k := breach(t).value;
      if k == 1 {
        assert line(t).Ok?;
        assert ClassifyBy(tickets, breach, line).value == (acc.value.0 + [line(t).value], acc.value.1);
        assert acc.value.1 + [] == acc.value.1;
      } else if k == 2 {
        assert line(t).Ok?;
        assert ClassifyBy(tickets, breach, line).value == (acc.value.0, acc.value.1 + [line(t).value]);
        assert acc.value.0 + [] == acc.value.0;
      } else {
        assert ClassifyBy(tickets, breach, line).value == acc.value;
        assert acc.value.0 + [] == acc.value.0 && acc.value.1 + [] == acc.value.1;
      }
    }
  }

  /** Once a ticket has raised, the tickets after it are not looked at. */
  lemma {:induction false} ClassifyByErrSticks(tickets: seq<Ticket>, breach: Ticket -> Result<int>,
                                               line: Ticket -> Result<string>, n: nat)
    requires n <= |tickets| && ClassifyBy(tickets[..n], breach, line).Err?
    ensures ClassifyBy(tickets, breach, line) == ClassifyBy(tickets[..n], breach, line)
    decreases |tickets| - n
  {
    if n < |tickets| {
      var m := |tickets| - 1;
      assert tickets[..n] == tickets[..m][..n];
      ClassifyByErrSticks(tickets[..m], breach, line, n);
    } else {
      assert tickets[..n] == tickets;
    }
  }

  /** What a ticket the loop does not get past raises: the error of the
      classifier, or else that of the line builder. */
  function FailureOf(t: Ticket, breach: Ticket -> Result<int>, line: Ticket -> Result<string>): string
    requires !Passes(t, breach, line)
  {
    if breach(t).Err? then breach(t).error else line(t).error
  }

  /** A failed loop reports the failure of the first ticket it could not get
      past; every ticket before that one passed. */
  lemma {:induction false} ClassifyByFirstErr(tickets: seq<Ticket>, breach: Ticket -> Result<int>,
                                              line: Ticket -> Result<string>)
    requires ClassifyBy(tickets, breach, line).Err?
    ensures exists k :: && 0 <= k < |tickets| && !Passes(tickets[k], breach, line)
                        && (forall j :: 0 <= j < k ==> Passes(tickets[j], breach, line))
                        && ClassifyBy(tickets, breach, line).error == FailureOf(tickets[k], breach, line)
    decreases |tickets|
  {
    var n := |tickets| - 1;
    var pre := tickets[..n];
    var acc := ClassifyBy(pre, breach, line);
    assert ClassifyBy(tickets, breach, line) == StepBy(acc, tickets[n], breach, line);
    if acc.Err? {
      ClassifyByFirstErr(pre, breach, line);
      var k :| && 0 <= k < |pre| && !Passes(pre[k], breach, line)
               && (forall j :: 0 <= j < k ==> Passes(pre[j], breach, line))
               && acc.error == FailureOf(pre[k], breach, line);
      assert forall j :: 0 <= j <= k ==> pre[j] == tickets[j];
    } else {
      ClassifyByOk(pre, breach, line);
      assert forall j :: 0 <= j < n ==> pre[j] == tickets[j];
      assert !Passes(tickets[n], breach, line);
    }
  }

  /** The loop of `main` over the search result: the SEV-1 and SEV-2 lines,
      or the error of the first ticket that raises. */
  function Classify(tickets: seq<Ticket>, cfg: Config): Result<Lists>
  {
    ClassifyBy(tickets, Breach(cfg), Line(cfg))
  }

  /** The lines of the tickets that breach with the given kind. */
  function LineIf(kind: int, cfg: Config): Ticket -> Option<string>
  {
    Pick(kind, Breach(cfg), Line(cfg))
  }

  /** A ticket that gets past `sla_breach` has a severity field, so its line
      can be built. */
  lemma BreachHasLine(t: Ticket, cfg: Config)
    requires SlaBreach(t, cfg).Ok?
    ensures TicketLine(t, cfg).Ok?
  {
  }

  /** The loop succeeds exactly when `sla_breach` succeeds on every ticket,
      and then each list holds the lines of the tickets of its kind, in
      search order. */
  lemma ClassifySpec(tickets: seq<Ticket>, cfg: Config)
    ensures Classify(tickets, cfg).Ok? <==> forall i :: 0 <= i < |tickets| ==> SlaBreach(tickets[i], cfg).Ok?
    ensures Classify(tickets, cfg).Ok? ==>
      Classify(tickets, cfg).value == (Seqs.FilterMap(tickets, LineIf(1, cfg)), Seqs.FilterMap(tickets, LineIf(2, cfg)))
    ensures Classify(tickets, cfg).Err? ==> FirstBreachError(tickets, cfg, Classify(tickets, cfg).error)
  {
    ClassifyByOk(tickets, Breach(cfg), Line(cfg));
    PassesIffBreach(tickets, cfg);
    if Classify(tickets, cfg).Ok? {
      ClassifyByLists(tickets, Breach(cfg), Line(cfg));
    } else {
      ClassifyFirstError(tickets, cfg);
    }
  }

  /** With the script's own classifier and line builder, a ticket gets past
      the loop exactly when `sla_breach` succeeds on it. */
  lemma PassesIffBreach(tickets: seq<Ticket>, cfg: Config)
    ensures forall i :: 0 <= i < |tickets| ==>
      (Passes(tickets[i], Breach(cfg), Line(cfg)) <==> SlaBreach(tickets[i], cfg).Ok?)
  {
    forall i | 0 <= i < |tickets|
      ensures Passes(tickets[i], Breach(cfg), Line(cfg)) <==> SlaBreach(tickets[i], cfg).Ok?
    {
      if SlaBreach(tickets[i], cfg).Ok? {
        BreachHasLine(tickets[i], cfg);
      }
    }
  }

  /** A failed loop raises what `sla_breach` raised on the first ticket it
      raised on. */
  lemma ClassifyFirstError(tickets: seq<Ticket>, cfg: Config)
    requires Classify(tickets, cfg).Err?
    ensures FirstBreachError(tickets, cfg, Classify(tickets, cfg).error)
  {
    PassesIffBreach(tickets, cfg);
    ClassifyByFirstErr(tickets, Breach(cfg), Line(cfg));
    var k :| && 0 <= k < |tickets| && !Passes(tickets[k], Breach(cfg), Line(cfg))
             && (forall j :: 0 <= j < k ==> Passes(tickets[j], Breach(cfg), Line(cfg)))
             && Classify(tickets, cfg).error == FailureOf(tickets[k], Breach(cfg), Line(cfg));
    assert SlaBreach(tickets[k], cfg).Err?;
  }

  /** `e` is what `sla_breach` raised on the first ticket it raised on. */
  predicate FirstBreachError(tickets: seq<Ticket>, cfg: Config, e: string)
  {
    exists k :: && 0 <= k < |tickets| && SlaBreach(tickets[k], cfg).Err?
                && (forall j :: 0 <= j < k ==> SlaBreach(tickets[j], cfg).Ok?)
                && e == SlaBreach(tickets[k], cfg).error
  }

  /** The same loop, statement by statement. */
  method Partition(tickets: seq<Ticket>, cfg: Config) returns (r: Result<Lists>)
    ensures r == Classify(tickets, cfg)
  {
    var sev1: seq<string> := [];
    var sev2: seq<string> := [];
    var i := 0;
    while i < |tickets|
      invariant 0 <= i <= |tickets|
      invariant Classify(tickets[..i], cfg) == Ok((sev1, sev2))
    {
      assert tickets[..i + 1][..i] == tickets[..i];
      var breach := SlaBreach(tickets[i], cfg);
      if breach.Err? {
        ClassifyByErrSticks(tickets, Breach(cfg), Line(cfg), i + 1);
        return Err(breach.error);
      }
      if breach.value == 1 || breach.value == 2 {
        var line := TicketLine(tickets[i], cfg);
        if line.Err? {
          ClassifyByErrSticks(tickets, Breach(cfg), Line(cfg), i + 1);
          return Err(line.error);
        }
        if breach.value == 1 {
          sev1 := sev1 + [line.value];
        } else {
          sev2 := sev2 + [line.value];
        }
      }
      i := i + 1;
    }
    assert tickets[..i] == tickets;
    r := Ok((sev1, sev2));
  }

  // ---------------------------------------------------------------- messages

  const Sev1Header := "The list of open *SEV-1* incidents that have not been updated for 2 hours:"
  const Sev2Header := "The list of open *SEV-2* incidents that have not been updated for a day:"

  /** The texts `main` posts, in order: each non-empty list after its header. */
  function Messages(sev1: seq<string>, sev2: seq<string>): (r: seq<string>)
    ensures r == [] <==> sev1 == [] && sev2 == []
    ensures |r| == |sev1| + |sev2| + (if sev1 != [] then 1 else 0) + (if sev2 != [] then 1 else 0)
  {
    (if sev1 != [] then [Sev1Header] + sev1 else []) + (if sev2 != [] then [Sev2Header] + sev2 else [])
  }

  /** Where the SEV-2 block starts: after the SEV-1 header and lines, if any. */
  function Sev2Offset(sev1: seq<string>): nat
  {
    if sev1 != [] then |sev1| + 1 else 0
  }

  /** The SEV-1 lines are posted in order after their header, then the SEV-2
      lines in order after theirs; an empty list posts neither header nor
      lines. With the length from `Messages`, this fixes every message. */
  lemma MessagesOrder(sev1: seq<string>, sev2: seq<string>)
    ensures sev1 != [] ==> Messages(sev1, sev2)[0] == Sev1Header && Messages(sev1, sev2)[1..|sev1| + 1] == sev1
    ensures sev2 != [] ==>
      && Messages(sev1, sev2)[Sev2Offset(sev1)] == Sev2Header
      && Messages(sev1, sev2)[Sev2Offset(sev1) + 1..] == sev2
    ensures sev2 == [] ==> |Messages(sev1, sev2)| == Sev2Offset(sev1)
  {
    var a := if sev1 != [] then [Sev1Header] + sev1 else [];
    var b := if sev2 != [] then [Sev2Header] + sev2 else [];
    assert Messages(sev1, sev2) == a + b;
    assert |a| == Sev2Offset(sev1);
    assert (a + b)[|a|..] == b;
  }

  /** What posting one message to the webhook produced: an HTTP status, or a
      request error (timeout, redirects, another request error), which is
      logged. */
  datatype Post = Delivered(status: int) | PostRaised

  /** The post rejected with a status other than 200. */
  predicate Rejected(p: Post)
  {
    p.Delivered? && p.status != 200
  }

  /** The `n`-th post, counting from one, was rejected. */
  predicate RejectedAt(posts: nat -> Post, n: nat)
  {
    n >= 1 && Rejected(posts(n - 1))
  }

  /** `send_message_to_slack` over the messages: a request error is logged
      and the next message is sent, but a status other than 200 raises a
      `ValueError` no handler catches, and the remaining messages are not
      sent. `sent` is the messages posted, in order. */
  method SendAll(messages: seq<string>, posts: nat -> Post) returns (sent: seq<string>, r: Result<()>)
    ensures sent <= messages
    ensures forall i :: 0 <= i < |sent| - 1 ==> !Rejected(posts(i))
    ensures r.Err? <==> exists i :: 0 <= i < |messages| && Rejected(posts(i))
    ensures r.Err? ==> r.error == "ValueError" && RejectedAt(posts, |sent|)
    ensures r.Ok? ==> sent == messages
  {
    sent := [];
    while |sent| < |messages|
      invariant sent <= messages
      invariant forall i :: 0 <= i < |sent| ==> !Rejected(posts(i))
    {
      var p := posts(|sent|);
      sent := sent + [messages[|sent|]];
      if Rejected(p) {
        return sent, Err("ValueError");
      }
    }
    r := Ok(());
  }

  /** `main` after the search: the lines, the texts to post, or the error
      the classification raised. */
  method Alerts(tickets: seq<Ticket>, cfg: Config) returns (r: Result<seq<string>>)
    ensures r.Ok? <==> forall i :: 0 <= i < |tickets| ==> SlaBreach(tickets[i], cfg).Ok?
    ensures r.Ok? ==>
      r.value == Messages(Seqs.FilterMap(tickets, LineIf(1, cfg)), Seqs.FilterMap(tickets, LineIf(2, cfg)))
    ensures r.Err? ==> FirstBreachError(tickets, cfg, r.error)
  {
    ClassifySpec(tickets, cfg);
    var lists := Partition(tickets, cfg);
    if lists.Err? {
      return Err(lists.error);
    }
    r := Ok(Messages(lists.value.0, lists.value.1));
  }

  /** `sla_breach` succeeds on every ticket of the search. */
  predicate AllClassified(tickets: seq<Ticket>, cfg: Config)
  {
    forall i :: 0 <= i < |tickets| ==> SlaBreach(tickets[i], cfg).Ok?
  }

  /** The texts `main` posts for tickets that all classify. */
  function Texts(tickets: seq<Ticket>, cfg: Config): seq<string>
  {
    Messages(Seqs.FilterMap(tickets, LineIf(1, cfg)), Seqs.FilterMap(tickets, LineIf(2, cfg)))
  }

  /** `main` after the search, posting included: nothing is posted when the
      classification raises; otherwise the texts are posted in order, up to
      and including the first post answered with a status other than 200,
      which ends the run with `ValueError`. `posted` is what went out. */
  method Run(tickets: seq<Ticket>, cfg: Config, posts: nat -> Post) returns (posted: seq<string>, r: Result<()>)
    ensures !AllClassified(tickets, cfg) ==> posted == [] && r.Err? && FirstBreachError(tickets, cfg, r.error)
    ensures AllClassified(tickets, cfg) ==> posted <= Texts(tickets, cfg)
    ensures AllClassified(tickets, cfg) ==>
      (r.Err? <==> exists i :: 0 <= i < |Texts(tickets, cfg)| && Rejected(posts(i)))
    ensures AllClassified(tickets, cfg) && r.Ok? ==> posted == Texts(tickets, cfg)
    ensures AllClassified(tickets, cfg) && r.Err? ==>
      r.error == "ValueError" && RejectedAt(posts, |posted|)
    ensures forall i :: 0 <= i < |posted| - 1 ==> !Rejected(posts(i))
  {
    var texts := Alerts(tickets, cfg);
    if texts.Err? {
      return [], Err(texts.error);
    }
    assert texts.value == Texts(tickets, cfg);
    posted, r := SendAll(texts.value, posts);
  }
}
