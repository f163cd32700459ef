/** slack_rename_emails/slack_rename.py: list the workspace's members that
    have an e-mail address, and work out, for each `omnigon.com` address, the
    `ix.co` address it would be changed to. The change itself is commented out
    in the script: the run only prints the old and new address. */
module SlackEmails {
  import opened Wrappers
  import opened Text
  import Paging
  import Seqs

  /** A member record of `users.list`: its id and its profile's `email`
      field, when the profile has one. */
  datatype Member = Member(id: string, email: Option<string>)

  /** The comprehension in `slack_get`: members whose email is present and
      non-empty give their `(id, email)`. */
  function IdAndEmail(m: Member): Option<(string, string)>
  {
    if m.email.Some? && m.email.value != "" then Some((m.id, m.email.value)) else None
  }

  /** A page keeps exactly the members with a non-empty email, as `(id, email)`. */
  lemma PageKeepsMembersWithEmail(members: seq<Member>)
    ensures forall p :: p in Seqs.FilterMap(members, IdAndEmail) <==>
      p.1 != "" && Member(p.0, Some(p.1)) in members
  {
    Seqs.FilterMapMembers(members, IdAndEmail);
    forall p ensures p in Seqs.FilterMap(members, IdAndEmail) <==>
      p.1 != "" && Member(p.0, Some(p.1)) in members
    {
      if p.1 != "" && Member(p.0, Some(p.1)) in members {
        assert IdAndEmail(Member(p.0, Some(p.1))) == Some(p);
      }
    }
  }

  /** `m` is a member on one of the pages the listing fetched. */
  ghost predicate Fetched(answers: seq<Paging.Answer<Member>>, m: Member)
    requires Paging.Ends(answers)
  {
    exists k :: 0 <= k <= Paging.StopAt(answers) && Paging.IsPage(answers[k]) && m in answers[k].records
  }

  /** `create_list`: every listed pair is the id and non-empty email of a
      member on a page the listing fetched. */
  method CreateList(answers: seq<Paging.Answer<Member>>) returns (r: Result<seq<(string, string)>>)
    requires Paging.Ends(answers)
    ensures r == Paging.Listing(answers, IdAndEmail)
    ensures r.Ok? ==> forall p :: p in r.value ==> p.1 != "" && Fetched(answers, Member(p.0, Some(p.1)))
  {
    r := Paging.CreateList(answers, IdAndEmail);
    if r.Ok? {
      forall p | p in r.value
        ensures p.1 != "" && Fetched(answers, Member(p.0, Some(p.1)))
      {
        Paging.ListingMembers(answers, IdAndEmail, p);
        var k, m :| 0 <= k <= Paging.StopAt(answers) && Paging.IsPage(answers[k]) &&
          m in answers[k].records && IdAndEmail(m) == Some(p);
        assert m == Member(p.0, Some(p.1));
      }
    }
  }

  // ---------------------------------------------------------------- rewriting

  const OldDomain := "omnigon.com"
  const NewDomain := "ix.co"

  /** `rstrip('omnigon.com')` treats its argument as a set of characters. */
  const StrippedChars: set<char> := {'o', 'm', 'n', 'i', 'g', 'c', '.'}

  /** `email.rstrip('omnigon.com') + 'ix.co'`. */
  function NewEmail(email: string): string
  {
    TrimEnd(email, StrippedChars) + NewDomain
  }

  /** For an address at exactly `omnigon.com` the rewrite is the intended
      domain swap: `@` is not among the stripped characters. */
  lemma RewriteAtDomain(local: string)
    ensures NewEmail(local + "@" + OldDomain) == local + "@" + NewDomain
  {
    TrimEndAt(local + "@", OldDomain, StrippedChars);
  }

  /** The strip is by characters, not by suffix: a subdomain loses its dot
      and every trailing character from the set, not just `omnigon.com`. */
  lemma RewriteOfSubdomain()
    ensures NewEmail("a@mail.omnigon.com") == "a@mailix.co"
  {
    assert "a@mail.omnigon.com" == "a@mail" + ".omnigon.com";
    TrimEndAt("a@mail", ".omnigon.com", StrippedChars);
  }

  /** One line `main` prints for a listed `(id, email)` pair, when it prints one. */
  function Rename(user: (string, string)): Option<(string, string)>
  {
    if EndsWith(user.1, OldDomain) then Some((user.1, NewEmail(user.1))) else None
  }

  /** Every printed pair rewrites an `omnigon.com` address. */
  lemma RenameShape(users: seq<(string, string)>)
    ensures forall p :: p in Seqs.FilterMap(users, Rename) ==>
      EndsWith(p.0, OldDomain) && p.1 == NewEmail(p.0)
  {
    Seqs.FilterMapMembers(users, Rename);
  }

  /** The loop of `main`: the `old -> new` lines it prints, in list order.
      No request is made, so the workspace is not changed. */
  method PlanRenames(users: seq<(string, string)>) returns (plan: seq<(string, string)>)
    ensures plan == Seqs.FilterMap(users, Rename)
    ensures forall i :: 0 <= i < |plan| ==>
      EndsWith(plan[i].0, OldDomain) && plan[i].1 == NewEmail(plan[i].0)
  {
    plan := [];
    var i := 0;
    while i < |users|
      invariant 0 <= i <= |users|
      invariant plan == Seqs.FilterMap(users[..i], Rename)
    {
      Seqs.FilterMapSnoc(users[..i], users[i], Rename);
      assert users[..i + 1] == users[..i] + [users[i]];
      var r := Rename(users[i]);
      if r.Some? {
        plan := plan + [r.value];
      }
      i := i + 1;
    }
    assert users[..i] == users;
    RenameShape(users);
  }

  /** Only addresses ending in `omnigon.com` are rewritten, and every one of
      them is. */
  lemma RenamesExactly(users: seq<(string, string)>)
    ensures forall p :: p in Seqs.FilterMap(users, Rename) <==>
      exists u :: u in users && EndsWith(u.1, OldDomain) && p == (u.1, NewEmail(u.1))
  {
    Seqs.FilterMapMembers(users, Rename);
  }
}
