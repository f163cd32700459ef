# IX.co operational scripts, modelled in Dafny

This project models five small operational scripts of the IX.co repository.
Each script talks to a SaaS API (Datadog, Zendesk, Slack) and reshapes what it
gets back. Every request is replaced by the answer it returned, given as a
parameter. Files, environment variables and the command line are replaced by
the values they produced. What the model keeps is the logic between those
calls:

- `databox.dfy` models `databox_integration/inte.py`. It reads SLO ids and
  turns Datadog SLO history answers into `$name` metrics. It polls Zendesk
  view previews until they are fresh, at most four times. It sums view counts
  per Databox name, builds the Basic `Authorization` header, and assembles the
  two record lists pushed to Databox, every record stamped with the same
  `strftime` date.
- `watcher.dfy` models `zendesk_watcher/watcher.py`. It decides whether a
  ticket breaches the SEV-1 (two hours) or SEV-2 (one day) update SLA, builds
  the ` | `-joined ticket line with its help-centre link, sorts the search
  result into the two lists, and produces the sequence of Slack messages. It
  also models how a webhook status other than 200 stops the sending.
- `slack_emails.dfy` models `slack_rename_emails/slack_rename.py`. It models
  the cursor-paginated member listing that keeps members with an e-mail, and
  the `omnigon.com` to `ix.co` rewrite the script prints.
- `slack_channels.dfy` models `slack_rename_channels/slack.py`. It models the
  cursor-paginated channel listing, the `fullmatch('^og-.*$')` test, and the
  `og-` to `ix-` rename the script prints.
- `mlab.dfy` models `mlab/mlab.py`. It is a backtracking matcher for the
  case-insensitive `line_re`. The model proves that the matcher equals a
  closed form, then sums the sizes per project in dictionary insertion order.

Shared pieces:

- `text.dfy` holds Python string operations: `str.replace`, `strip`, `lstrip`
  and `rstrip` with a character set, ASCII `lower`, `join`, and `str(int)`.
- `tally.dfy` holds an insertion-ordered `dict` used for per-key sums.
- `paging.dfy` holds the cursor loop both Slack `create_list` functions share.
- `base64.dfy` holds `b64encode` and ASCII encoding.
- `dateformat.dfy` holds `strftime('%Y-%m-%d %H:%M:%S')` and the
  `strptime` read of the same fields.
- `wrappers.dfy` holds `Option`, `Result`, and a filter-map over sequences
  that stands for a list comprehension with a condition.

A view that never answers fresh still counts. `if response` (`inte.py:238`)
refuses only an empty dict, so the last stale count (an integer) is added to
the total.
`Databox.StaleResponseCounts` shows a stale 7 added to a fresh 10.

## Model

| member | source | states |
|---|---|---|
| Databox.MultireplaceCharwise | databox_integration/inte.py:100-109 | the three chained replacements act on each character on its own: a space becomes `_`, `[` and `]` vanish, every other character stays |
| Databox.EditCharsFrom | databox_integration/inte.py:109 | every character of the cleaned text is `_` or a character of the input other than a space or a bracket |
| Databox.MultireplaceClean | databox_integration/inte.py:95 | a metric name, lower-cased and cleaned, holds no space, no bracket and no ASCII capital |
| Databox.SloSampleName | databox_integration/inte.py:60-97 | the sample is `(0, "")` exactly when the request failed; otherwise the name is `$` and a cleaned name, and it is never `date`, so it cannot clash with the record's date field |
| Databox.GetSloIds | databox_integration/inte.py:40-57 | one id per line of the file, in file order, each the line with surrounding whitespace stripped; blank lines give empty ids |
| Databox.DatadogData | databox_integration/inte.py:209-222 | one record per id, in order, each with the shared date, keyed by the sample's name and holding its value; no key is `date` |
| Databox.PollFromSpec | databox_integration/inte.py:229-237 | the preview is requested between one and four times, each earlier answer was stale, the last answer is kept, and fewer than four requests means the last one was fresh |
| Databox.Poll | databox_integration/inte.py:229-237 | the polling loop makes the requests and keeps the answer the polling specification gives, with the same bounds and freshness facts |
| Databox.MergeIsAddTo | databox_integration/inte.py:239-242 | adding to a truthy total and assigning otherwise is the same as plain summation, since the two differ only on a total of zero |
| Databox.ZendeskResults | databox_integration/inte.py:228-244 | the view loop, polling each view in turn, ends in the state the aggregate of the kept responses describes |
| Databox.AggregateErrSticks | databox_integration/inte.py:228-244 | once a view raises, the views after it change nothing |
| Databox.AggregateSpec | databox_integration/inte.py:228-244 | the loop raises `KeyError` exactly when some kept response lacks a field it reads; otherwise the totals are the per-name sums of the counts, in order of first appearance, and the failed list names, in order, the views whose answer was empty |
| Databox.AggregateErrIsKeyError | databox_integration/inte.py:238-244 | for integer or missing counts, the only error the view loop raises is `KeyError` |
| Databox.ZendeskTotalsPerName | databox_integration/inte.py:239-246 | each Databox name reads the sum of its views' counts; a name with no counted view is absent |
| Databox.StaleResponseCounts | databox_integration/inte.py:231-242 | a view that stays stale through four answers still adds its last value: fresh 10 and stale 7 under one name give 17 |
| Databox.ZendeskData | databox_integration/inte.py:245-246 | one record per Databox name, in insertion order, each with the shared date and that name's total |
| Databox.AuthHeaderDecodes | databox_integration/inte.py:177 | the header exists exactly when the `email/token:token` credentials are ASCII; it is then `Basic ` followed by a token that decodes back to those credentials |
| Databox.ZendeskSection | databox_integration/inte.py:223-246 | non-ASCII credentials with at least one view end the run with `UnicodeEncodeError`; otherwise a missing field ends it with `KeyError`, and with no missing field it succeeds; on success the records are the aggregated totals with the date |
| Databox.CollectPostData | databox_integration/inte.py:193-246 | only the Zendesk part can fail: with `UnicodeEncodeError` for non-ASCII credentials and a view, otherwise with `KeyError` exactly when a view lacks a field, and, for integer or missing counts, it succeeds in every other case; a payload exists for exactly the enabled sources; the Datadog payload has one record per id line, the `i`-th holding the formatted start time and the `i`-th sample's name and value; the Zendesk payload is the aggregated totals |
| Text.StripSlice | databox_integration/inte.py:53 | `strip()` keeps one contiguous slice of its input, removes only whitespace before and after it, and leaves no whitespace at either end |
| Text.TrimBoth | databox_integration/inte.py:53 | the same slice property for stripping any character set from both ends |
| Text.StripIdempotent | databox_integration/inte.py:53 | stripping a stripped id changes nothing |
| Text.TrimEndSpec | slack_rename_emails/slack_rename.py:78 | `rstrip(chars)` keeps a prefix of its input, removes only characters of the set after it, and the kept prefix does not end in one |
| Text.TrimStartSpec | slack_rename_channels/slack.py:79 | `lstrip(chars)` keeps a suffix of its input, removes only characters of the set before it, and the kept suffix does not start with one |
| Text.TrimEndAt | slack_rename_emails/slack_rename.py:78 | text whose last character is outside the set, followed by characters of the set, right-strips to that text |
| Text.TrimStartAt | slack_rename_channels/slack.py:79 | characters of the set followed by text whose first character is outside it left-strip to that text |
| Text.ReplaceAbsent | zendesk_watcher/watcher.py:92 | replacing a pattern that does not occur changes nothing |
| Text.ReplaceAfter | zendesk_watcher/watcher.py:92 | when the first occurrence of the pattern starts right after `p`, replacing all occurrences keeps `p`, puts the replacement there, and goes on after the pattern |
| Text.ReplaceCharSplit | databox_integration/inte.py:109 | replacing a one-character pattern distributes over concatenation |
| Text.ReplaceOmits | databox_integration/inte.py:109 | a character that the replacement lacks, and that is either the whole pattern or absent from the input, is absent from the result |
| Text.JoinCount | zendesk_watcher/watcher.py:113-122 | joining parts that lack a character gives that character once per separator occurrence |
| Text.JoinFirst | zendesk_watcher/watcher.py:113-122 | a join of two or more parts starts with the first part and the separator |
| Text.Decimal | zendesk_watcher/watcher.py:115 | `str` of a natural number is a non-empty run of digits with no leading zero |
| Text.DecimalRoundTrip | zendesk_watcher/watcher.py:115 | the decimal text of a ticket id reads back as that id |
| Text.PadRoundTrip | databox_integration/inte.py:222 | a zero-padded field has the requested width and reads back as its value |
| DateFormat.ReadNumber | zendesk_watcher/watcher.py:77 | a field reads as a number exactly when it is all digits, and then as their value |
| DateFormat.FormatFields | databox_integration/inte.py:222 | the record date is 19 characters with `-`, `-`, space, `:`, `:` at fixed places and each field zero-padded between them |
| DateFormat.FormatParse | databox_integration/inte.py:222 | the record date reads back as the same date and time |
| DateFormat.NotAfterTransitive | zendesk_watcher/watcher.py:78-82 | comparing naive datetimes with `<=` is transitive |
| DateFormat.NotAfterTotal | zendesk_watcher/watcher.py:78-82 | any two datetimes compare one way or the other, and both ways only when equal |
| Base64.Encode | databox_integration/inte.py:177 | the encoding has four characters per started group of three bytes |
| Base64.IndexSextet | databox_integration/inte.py:177 | each of the 64 alphabet characters reads back as its index |
| Base64.SextetInjective | databox_integration/inte.py:177 | different indices give different alphabet characters |
| Base64.GroupRoundTrip | databox_integration/inte.py:177 | a group of one to three bytes decodes back from its four characters, padding included |
| Base64.EncodeDecode | databox_integration/inte.py:177 | every byte string decodes back from its encoding, as section 4 of RFC 4648 requires |
| Base64.EncodeAlphabet | databox_integration/inte.py:177 | the encoding holds only alphabet characters and `=` |
| Base64.AsciiBytes | databox_integration/inte.py:177 | `encode("ascii")` succeeds exactly when every character is below 128, and then gives one byte per character with the same code |
| Base64.AsciiRoundTrip | databox_integration/inte.py:177 | `decode("ascii")` of the encoded bytes gives the text back |
| Tally.GetDefined | mlab/mlab.py:20 | `d.get(k)` finds a value exactly when `k` is a key |
| Tally.GetPut | mlab/mlab.py:21-23 | after `d[k] = v`, `k` reads `v` and every other key reads what it read before |
| Tally.PutKeys | mlab/mlab.py:21-23 | assigning to an existing key keeps the key order; a new key goes at the end |
| Tally.GetAt | mlab/mlab.py:29-30 | in a dict with distinct keys, each entry's key reads that entry's value |
| Tally.FirstOccurrencesMembers | mlab/mlab.py:29-30 | the first-occurrence order lists each key once, and exactly the keys that occur |
| Tally.AccumulateKeys | mlab/mlab.py:16-30 | summing pairs into a dict gives distinct keys in order of first appearance |
| Tally.TotalOfAbsent | mlab/mlab.py:21-23 | a key that never occurs sums to zero |
| Tally.AccumulateGet | mlab/mlab.py:16-23 | after summing, a key reads the total of its values, and a key that never occurred is absent |
| Tally.AccumulateEntries | mlab/mlab.py:29-30 | each written entry pairs its key with the sum of that key's values |
| Seqs.FilterMapAppend | slack_rename_emails/slack_rename.py:40-43 | filtering a concatenation concatenates the filtered parts |
| Seqs.FilterMapSnoc | slack_rename_emails/slack_rename.py:76-79 | one more element adds its image at the end, if it has one |
| Seqs.FilterMapMembers | slack_rename_emails/slack_rename.py:34-35 | an item is in the filtered list exactly when some element maps to it |
| Seqs.FilterMapTotal | slack_rename_channels/slack.py:37 | a comprehension without a condition keeps every element, in order |
| Paging.CreateList | slack_rename_emails/slack_rename.py:38-44 | the cursor loop returns what the listing specification gives, including the error |
| Paging.StopAt | slack_rename_emails/slack_rename.py:41 | the listing stops at the first answer that is no page or has an empty cursor, and at no earlier one |
| Paging.ListingClosedForm | slack_rename_channels/slack.py:40-46 | the listing succeeds exactly when the answer it stops at is a page, and is then every page up to that one, concatenated in request order |
| Paging.ListingMembers | slack_rename_channels/slack.py:37-46 | every listed item converts a record of a page the listing fetched |
| SlackEmails.PageKeepsMembersWithEmail | slack_rename_emails/slack_rename.py:34-35 | a page keeps exactly the members whose profile has a non-empty e-mail, as `(id, email)` |
| SlackEmails.CreateList | slack_rename_emails/slack_rename.py:11-44 | every listed pair is the id and non-empty e-mail of a member on a fetched page |
| SlackEmails.RewriteAtDomain | slack_rename_emails/slack_rename.py:77-78 | an address at exactly `omnigon.com` becomes the same local part at `ix.co` |
| SlackEmails.RewriteOfSubdomain | slack_rename_emails/slack_rename.py:78 | the strip works on characters, not a suffix: `a@mail.omnigon.com` becomes `a@mailix.co` |
| SlackEmails.RenameShape | slack_rename_emails/slack_rename.py:76-79 | every printed pair is an `omnigon.com` address and its rewrite |
| SlackEmails.PlanRenames | slack_rename_emails/slack_rename.py:74-80 | the loop prints, in list order, one line per listed address ending in `omnigon.com`, each with its rewrite |
| SlackEmails.RenamesExactly | slack_rename_emails/slack_rename.py:76-79 | a pair is printed exactly when a listed address ends in `omnigon.com` and the pair is that address and its rewrite |
| SlackChannels.CreateList | slack_rename_channels/slack.py:13-46 | the listing is every fetched page concatenated, and no channel of a fetched page is dropped |
| SlackChannels.OgMatchIff | slack_rename_channels/slack.py:78 | `fullmatch('^og-.*$')` holds exactly for names that start with `og-` and hold no newline; a final newline is refused |
| SlackChannels.OgMatchExamples | slack_rename_channels/slack.py:78 | `og-` and `og-og-team` match; `og`, `ogx-a`, `xog-a` and `og-a` with a final newline do not |
| SlackChannels.RenameOgDash | slack_rename_channels/slack.py:79 | on a name starting with `og-` the left strip stops at the dash, so the new name is `ix-` and the rest |
| SlackChannels.RenameShape | slack_rename_channels/slack.py:77-80 | every printed pair is a matching name and the same name with `og-` replaced by `ix-` |
| SlackChannels.PlanRenames | slack_rename_channels/slack.py:72-81 | the loop prints, in list order, one line per listed channel whose name matches, with `og-` replaced by `ix-` |
| SlackChannels.RenamesExactly | slack_rename_channels/slack.py:77-80 | a pair is printed exactly when a listed channel's name matches the pattern and the pair is that name and its rename |
| Watcher.Severity | zendesk_watcher/watcher.py:73-76 | the severity is the value of the first custom field with the configured id; `IndexError` exactly when no field has it |
| Watcher.SlaBreachSpec | zendesk_watcher/watcher.py:61-82 | a missing severity raises `IndexError` before the date is read, and a malformed date raises `ValueError`; a ticket with its severity field and a readable date always gets a kind; the kind is 1 exactly for SEV-1 updated no later than two hours ago, and 2 exactly for SEV-2 updated no later than a day ago |
| Watcher.BreachPersists | zendesk_watcher/watcher.py:78-82 | with both thresholds moved later, a breaching ticket breaches in the same way |
| Watcher.ZdLinkOfApiUrl | zendesk_watcher/watcher.py:85-92 | an API ticket URL `…api/v2/tickets/<id>.json` becomes its help-centre page `…hc/requests/<id>` when host and id hold no `a` or `j` |
| Watcher.ApiStep | zendesk_watcher/watcher.py:92 | the first replacement rewrites the API path and nothing else |
| Watcher.JsonStep | zendesk_watcher/watcher.py:92 | the second replacement removes the final `.json` when nothing before it holds a `j` |
| Watcher.TicketLineShape | zendesk_watcher/watcher.py:95-123 | the line exists exactly when the severity field does; it starts with the ticket number and ` \| `; when no field holds a bar, it holds exactly five bars, one per separator |
| Watcher.JoinedShape | zendesk_watcher/watcher.py:113-122 | six fields joined with ` \| ` start with the first field and a separator, and hold five bars when the fields hold none |
| Watcher.UnknownOrg | zendesk_watcher/watcher.py:110-122 | a built line starts with the ticket number, the subject and then the organization's name, or `Unknown org` for a ticket without one, each followed by ` \| ` |
| Watcher.BreachHasLine | zendesk_watcher/watcher.py:106-109 | a ticket that gets past `sla_breach` has its severity field, so its line can be built |
| Watcher.ClassifyByOk | zendesk_watcher/watcher.py:160-165 | the loop succeeds exactly when every ticket gets past classification and line building |
| Watcher.ClassifyByLists | zendesk_watcher/watcher.py:160-165 | when the loop succeeds, each list holds the lines of the tickets of its kind, in search order |
| Watcher.ClassifyByFirstErr | zendesk_watcher/watcher.py:160-165 | a failed loop reports the error of the first ticket it could not get past, and every earlier ticket got past |
| Watcher.ClassifyByErrSticks | zendesk_watcher/watcher.py:160-165 | once a ticket raises, the tickets after it change nothing |
| Watcher.ClassifySpec | zendesk_watcher/watcher.py:159-165 | the loop succeeds exactly when `sla_breach` succeeds on every ticket, and then yields the SEV-1 and SEV-2 lines in search order; otherwise it raises what `sla_breach` raised on the first ticket it raised on |
| Watcher.PassesIffBreach | zendesk_watcher/watcher.py:160-165 | a ticket gets past the loop exactly when `sla_breach` succeeds on it, since its line can then always be built |
| Watcher.ClassifyFirstError | zendesk_watcher/watcher.py:160-165 | a failed loop raises what `sla_breach` raised on the first ticket it raised on, every earlier ticket having succeeded |
| Watcher.Partition | zendesk_watcher/watcher.py:160-165 | the loop, statement by statement, gives the lists or the error the classification specifies |
| Watcher.Messages | zendesk_watcher/watcher.py:166-183 | the texts to post are none exactly when both lists are empty; their number is the lines plus one header per non-empty list (their order is in `Watcher.MessagesOrder`) |
| Watcher.MessagesOrder | zendesk_watcher/watcher.py:166-181 | a non-empty SEV-1 list is posted first, its header then its lines in order; a non-empty SEV-2 list follows, its header then its lines in order, up to the end; an empty list posts neither header nor lines |
| Watcher.SendAll | zendesk_watcher/watcher.py:41-58 | request errors are logged and sending goes on; the messages are posted in order up to and including the first post answered with a status other than 200, which raises `ValueError` and stops the rest; with no such answer every message is posted |
| Watcher.Alerts | zendesk_watcher/watcher.py:158-183 | the texts to post are exactly the headed SEV-1 and SEV-2 lines of the search result when `sla_breach` succeeds on every ticket; otherwise the run stops with what `sla_breach` raised on the first ticket it raised on |
| Watcher.Run | zendesk_watcher/watcher.py:158-183 | nothing is posted when `sla_breach` raises, and the error is the first one; otherwise the texts of `Watcher.Alerts` are posted in order, all of them exactly when no post is answered with a status other than 200, else up to and including the first such post, which ends the run with `ValueError` |
| Mlab.LineEndSpec | mlab/mlab.py:13 | `.*` reaches up to the first newline, or the end |
| Mlab.DigitEndSpec | mlab/mlab.py:13 | `\d+` takes the longest run of digits |
| Mlab.TrailingDigitsSpec | mlab/mlab.py:13 | the count of final digits stops at the last non-digit |
| Mlab.TailSpec | mlab/mlab.py:13 | ` - (\d+)$` matches at exactly one position, the start of the final ` - <digits>`, and reads those digits |
| Mlab.TailOfLine | mlab/mlab.py:13 | any text followed by ` - `, digits and an optional newline has its tail at the end of the text, even when the text holds another ` - 5` |
| Mlab.BacktrackSpec | mlab/mlab.py:13 | giving back characters from `.*` finds the tail exactly when it lies within the reach of `.*` |
| Mlab.RestSpec | mlab/mlab.py:13 | `.* - (\d+)$` matches from a position exactly when the tail lies after it with no newline in between, and then reads the final digits |
| Mlab.ProjectsPlain | mlab/mlab.py:8-13 | no project alternative holds a space or a newline |
| Mlab.RestAfterPlain | mlab/mlab.py:8-13 | whether the rest of the pattern matches does not depend on which project alternative took the text before it |
| Mlab.FirstPrefixSpec | mlab/mlab.py:8-13 | the search finds the first project alternative, in pattern order, that begins the text ignoring case, or reports that none does |
| Mlab.TryProjectSpec | mlab/mlab.py:8-13 | when the rest answers the same after every alternative that fits, the alternation takes the first alternative that fits |
| Mlab.EnvUnique | mlab/mlab.py:8 | the environments start with different letters, so at most one begins a line |
| Mlab.TryEnvSpec | mlab/mlab.py:8 | the environment alternation tries the one environment that begins the line, followed by a dash |
| Mlab.MatchWithSpec | mlab/mlab.py:8-13 | with plain project alternatives, the backtracking match equals the closed form |
| Mlab.MatchLineSpec | mlab/mlab.py:8-19 | `line_re.match` accepts a line exactly when an environment and a dash lead it, a listed project follows, and it ends with ` - `, digits and at most one newline with no other newline; group 2 is the first such project as written, group 3 the final digits |
| Mlab.MatchAccepts | mlab/mlab.py:8-19 | read forwards: a line with an environment, a fitting project and a well-formed tail matches with the first fitting project and the final digits |
| Mlab.AccumulateStep | mlab/mlab.py:18-23 | one more line adds its size to its project's total when it matches, and changes nothing otherwise |
| Mlab.Summarise | mlab/mlab.py:16-23 | the loop gives the per-project sums of the matched lines, with projects in order of first appearance |
| Mlab.SummaryTotals | mlab/mlab.py:16-23 | each project's total is the sum of the sizes of its matched lines; a project with no matched line is absent |
| Mlab.CaseKeepsKeysApart | mlab/mlab.py:13-23 | matching ignores case but the key keeps it: `DEV-ACO - 5` and `dev-aco - 7` give totals `ACO` 5 and `aco` 7 |
| Mlab.UpperCaseLine | mlab/mlab.py:8-19 | an upper-case line with a final newline matches, with the project as written |
| Mlab.LowerCaseLine | mlab/mlab.py:8-19 | a lower-case line without a newline matches |
| Mlab.NoDashAfterEnv | mlab/mlab.py:8 | a line whose environment is not followed by a dash does not match |
| Mlab.UnknownProject | mlab/mlab.py:8-13 | a project outside the list does not match |
| Mlab.NoProjectAfterDev | mlab/mlab.py:8-13 | after `dev-`, a word beginning with `z` is not a listed project |
| Mlab.SizeNotLast | mlab/mlab.py:13 | a line with text after the size does not match |
| Mlab.NewlineInside | mlab/mlab.py:13 | `.` does not cross a newline inside the line |

## Left out

- Network requests (Datadog, Databox, Zendesk, Slack) are not modelled. Each
  is a parameter holding the answer it returned, and a connection or HTTP
  error is one more kind of answer.
- File, environment and argument reading are not modelled. `argparse`,
  `getenv`, `open` and the ids and JSON files are replaced by the values they
  produced.
- Logging, `print` and `sleep` are not modelled. They affect no value the
  scripts compute.
- `push_to_databox` and the JSON body of the Slack webhook post are not
  modelled. They only serialise and send. The model stops at the record lists
  and the message texts.
- JSON decoding errors and the `KeyError` of a missing field are not modelled
  for the Datadog answer, for a Slack answer (`response_metadata`, `members`,
  `channels`, `profile`, `id`, `name`) or for a Zendesk view's `params`.
- `zendesk_preview` decodes the Zendesk answer outside its `try`
  (`inte.py:186`) and never checks the status. A body that is not JSON, such
  as an HTML error page, raises out of it. The model's `Response` is always a
  decoded answer or the empty dict of a connection error.
- A `view_count` that is JSON `null` or not an object makes `.get("fresh")`
  raise `AttributeError` (`inte.py:231`). The model's `ViewCount` is always an
  object.
- Watcher.TicketLine: a ticket whose `subject` or organization `name` is None
  makes `' | '.join` raise `TypeError` (`watcher.py:113-122`). The model's
  subject and organization name are always strings. The `KeyError` of a Zendesk view without `databox_name` or
  `view_count` is modelled.
- Databox.ViewCount: a JSON `null` in `view_count.value` is not modelled. A
  count is an integer or missing. With `null`, Python stores None as the total
  of a name that has no truthy total yet (`inte.py:242`), and raises
  `TypeError` when it adds None to a truthy total (`inte.py:240`). So
  Databox.AggregateErrIsKeyError, the success case of Databox.CollectPostData
  and Databox.StaleResponseCounts hold only for integer or missing counts.
- `read_json` returning an empty dict on malformed JSON is not modelled. The
  model takes the parsed list of views.
- Databox.DatadogData: the `i`-th SLO answer is taken to be the answer to the
  `i`-th id. The request URL, with its two timestamps a week apart, is not
  built.
- `datetime.utcnow()`, `datetime.now(timezone.utc)` and the one-week,
  two-hour and one-day subtractions are not modelled. The current time and
  the two thresholds are parameters.
- `timestamp()` on a naive datetime, which reads it in local time, is not
  modelled.
- DateFormat.Valid is restricted to years 1000-9999, where `%Y` gives four
  digits.
- Watcher.ParseUpdatedAt does not model that `strptime` matches
  case-insensitively (`2024-01-01t10:00:00z` parses) and also accepts
  unpadded or space-padded fields. It reads only zero-padded
  `YYYY-MM-DDTHH:MM:SSZ` with upper-case `T` and `Z`.
- The Zenpy client and its search are not modelled. The search result is the
  sequence of tickets it yielded.
- Mlab.Summarise keeps sizes as integer bytes. It does not model the float
  division by 1024³, nor its rounding.
- Writing `summaryOfproject.txt` is not modelled. `Tally.AccumulateKeys`
  gives the order in which its lines are written.
- The `OSError` exits of `mlab.py` are not modelled.
- Databox.SloSample lower-cases ASCII letters only. Python's `str.lower()`
  at `inte.py:95` also lower-cases other letters (`Über` becomes `über`),
  which the model leaves as they are. Unicode case mapping is not modelled.
- Databox.ZendeskData does not model a view whose `databox_name` is `date`.
  There `inte.py:246` builds `{"date": D, "date": total}`, which Python
  collapses to `{"date": total}`, so that record loses its date. The model
  keeps both fields. Datadog names cannot be `date`
  (`Databox.SloSampleName`).
- Mlab.MatchLine folds case for ASCII letters only. It does not model the few
  non-ASCII characters that `re.I` also folds to ASCII letters (such as the
  Kelvin sign).
- `\d` is not modelled for non-ASCII decimal digits, which `float()` would
  also accept.
- Paging.CreateList requires that the listing ends within the given answers.
  A server that keeps returning cursors forever is not modelled.
- `rename_channel` and `change_user_email` are not modelled. Both calls are
  commented out in their `main`, so a run never posts.
- `logparser/parser.py` is not part of this model.
