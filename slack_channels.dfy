/** slack_rename_channels/slack.py: list the workspace's channels and work
    out, for each channel named `og-…`, the `ix-…` name it would be renamed to.
    The rename request is commented out in the script: the run only prints the
    old and new name. */
module SlackChannels {
  import opened Wrappers
  import opened Text
  import Paging
  import Seqs

  /** A channel record of `conversations.list`. */
  datatype Channel = Channel(name: string, id: string)

  /** The comprehension in `slack_get`: every channel gives `(name, id)`. */
  function NameAndId(c: Channel): Option<(string, string)>
  {
    Some((c.name, c.id))
  }

  /** `create_list`: every fetched channel is listed, none is dropped. */
  method CreateList(answers: seq<Paging.Answer<Channel>>) returns (r: Result<seq<(string, string)>>)
    requires Paging.Ends(answers)
    ensures r == Paging.Listing(answers, NameAndId)
    ensures r.Ok? ==> r.value == Paging.PagesUpTo(answers, Paging.StopAt(answers) + 1, NameAndId)
    ensures forall k :: 0 <= k <= Paging.StopAt(answers) && Paging.IsPage(answers[k]) ==>
      |Seqs.FilterMap(answers[k].records, NameAndId)| == |answers[k].records|
  {
    r := Paging.CreateList(answers, NameAndId);
    Paging.ListingClosedForm(answers, NameAndId);
    forall k | 0 <= k <= Paging.StopAt(answers) && Paging.IsPage(answers[k])
      ensures |Seqs.FilterMap(answers[k].records, NameAndId)| == |answers[k].records|
    {
      Seqs.FilterMapTotal(answers[k].records, NameAndId);
    }
  }

  // ---------------------------------------------------------------- matching

  /** Where the pattern `$` holds in `s`: at the end, or just before a final
      newline. */
  predicate Dollar(s: string, j: nat)
  {
    j == |s| || (j + 1 == |s| && s[j] == '\n')
  }

  /** `.` matches every character but a newline. */
  predicate DotsOnly(s: string, i: nat, j: nat)
    requires i <= j <= |s|
  {
    forall k :: i <= k < j ==> s[k] != '\n'
  }

  /** `fullmatch('^og-.*$', name)`: the literal prefix, a run of `.` up to a
      position where `$` holds, and that position is the end of the name. */
  ghost predicate FullMatchOg(name: string)
  {
    && StartsWith(name, "og-")
    && exists j :: 3 <= j <= |name| && DotsOnly(name, 3, j) && Dollar(name, j) && j == |name|
  }

  /** The test `main` runs on each name. */
  predicate IsOgName(name: string)
  {
    StartsWith(name, "og-") && '\n' !in name
  }

  /** The pattern matches exactly the names that start with `og-` and hold no
      newline: a name ending in a newline is refused, since `$` may stop before
      it but `fullmatch` may not. */
  lemma OgMatchIff(name: string)
    ensures FullMatchOg(name) <==> IsOgName(name)
  {
    if IsOgName(name) {
      assert DotsOnly(name, 3, |name|);
    }
    if FullMatchOg(name) {
      forall k | 0 <= k < |name| ensures name[k] != '\n' {
        if k < 3 {
          assert name[..3][k] == name[k];
        }
      }
    }
  }

  lemma OgMatchExamples()
    ensures IsOgName("og-") && IsOgName("og-og-team")
    ensures !IsOgName("og") && !IsOgName("ogx-a") && !IsOgName("xog-a") && !IsOgName("og-a\n")
  {
    assert "ogx-a"[..3] != "og-" by { assert "ogx-a"[2] == 'x'; }
    assert "xog-a"[..3] != "og-" by { assert "xog-a"[0] == 'x'; }
    assert "og-a\n"[4] == '\n';
  }

  // ---------------------------------------------------------------- renaming

  /** `lstrip('og')` removes a leading run of the characters `o` and `g`. */
  const StrippedChars: set<char> := {'o', 'g'}

  /** `'ix' + name.lstrip('og')`. */
  function NewName(name: string): string
  {
    "ix" + TrimStart(name, StrippedChars)
  }

  /** On a matching name the rename swaps the `og` prefix for `ix` and keeps
      the rest: the strip stops at the dash. */
  lemma RenameOgDash(rest: string)
    ensures NewName("og-" + rest) == "ix-" + rest
  {
    assert "og-" + rest == "og" + ("-" + rest);
    TrimStartAt("og", "-" + rest, StrippedChars);
  }

  /** One line `main` prints for a listed `(name, id)` pair, when it prints one. */
  function Rename(channel: (string, string)): Option<(string, string)>
  {
    if IsOgName(channel.0) then Some((channel.0, NewName(channel.0))) else None
  }

  /** Every printed pair renames an `og-` channel to the same name with
      `ix-` in front of the rest. */
  lemma RenameShape(channels: seq<(string, string)>)
    ensures forall p :: p in Seqs.FilterMap(channels, Rename) ==>
      IsOgName(p.0) && p.1 == "ix-" + p.0[3..]
  {
    Seqs.FilterMapMembers(channels, Rename);
    forall p | p in Seqs.FilterMap(channels, Rename)
      ensures IsOgName(p.0) && p.1 == "ix-" + p.0[3..]
    {
      assert p in Seqs.FilterMap(channels, Rename);
      assert exists x :: x in channels && Rename(x) == Some(p);
      var c :| c in channels && Rename(c) == Some(p);
      assert p.0 == "og-" + p.0[3..];
      RenameOgDash(p.0[3..]);
    }
  }

  /** The loop of `main`: the `old -> new` lines it prints, in list order.
      Every new name is the old one with `og-` replaced by `ix-`. */
  method PlanRenames(channels: seq<(string, string)>) returns (plan: seq<(string, string)>)
    ensures plan == Seqs.FilterMap(channels, Rename)
    ensures forall i :: 0 <= i < |plan| ==>
      IsOgName(plan[i].0) && plan[i].1 == "ix-" + plan[i].0[3..]
  {
    plan := [];
    var i := 0;
    while i < |channels|
      invariant 0 <= i <= |channels|
      invariant plan == Seqs.FilterMap(channels[..i], Rename)
    {
      Seqs.FilterMapSnoc(channels[..i], channels[i], Rename);
      assert channels[..i + 1] == channels[..i] + [channels[i]];
      var r := Rename(channels[i]);
      if r.Some? {
        plan := plan + [r.value];
      }
      i := i + 1;
    }
    assert channels[..i] == channels;
    RenameShape(channels);
  }

  /** Exactly the listed channels whose name matches the pattern are renamed. */
  lemma RenamesExactly(channels: seq<(string, string)>)
    ensures forall p :: p in Seqs.FilterMap(channels, Rename) <==>
      exists c :: c in channels && FullMatchOg(c.0) && p == (c.0, NewName(c.0))
  {
    Seqs.FilterMapMembers(channels, Rename);
    forall c | c in channels ensures FullMatchOg(c.0) <==> IsOgName(c.0) {
      OgMatchIff(c.0);
    }
  }
}
