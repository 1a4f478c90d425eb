/**
 * The about page (src/pages/about.tsx): the team, each card badged with the
 * member's initials.
 */
module About {
  import opened Wrappers
  import opened Text

  datatype TeamMember = TeamMember(name: string, role: string)

  const TeamMembers: seq<TeamMember> := [
    TeamMember("Alex Morgan", "Founder & CEO"),
    TeamMember("Sarah Chen", "CTO"),
    TeamMember("Marcus Johnson", "Creative Director"),
    TeamMember("Elena Rodriguez", "Lead Frontend Dev"),
    TeamMember("David Kim", "Backend Lead"),
    TeamMember("Olivia Patel", "Head of Product")
  ]

  /** `w[0]` as rendered: the first character, or nothing for an empty word. */
  function Head1(w: string): (r: string)
    ensures |r| <= 1
    ensures r == [] <==> w == []
    ensures r != [] ==> r[0] == w[0]
  {
    if w == [] then [] else [w[0]]
  }

  /** The badge `name.split(" ")[0][0] + name.split(" ")[1][0]`. A name with
      no space has no second piece and the expression throws, modelled as None. */
  function Initials(name: string): (r: Option<string>)
    ensures r.None? <==> ' ' !in name
    ensures r.Some? ==> |r.value| <= 2
  {
    SplitManyIff(name, ' ');
    var words := Split(name, ' ');
    if |words| < 2 then None else Some(Head1(words[0]) + Head1(words[1]))
  }

  /** The badge takes the first letter of each of the first two words; any
      further words are ignored. */
  lemma InitialsOfFirstTwoWords(a: string, b: string, rest: string)
    requires ' ' !in a && ' ' !in b
    ensures Initials(a + " " + b) == Some(Head1(a) + Head1(b))
    ensures Initials(a + " " + b + " " + rest) == Some(Head1(a) + Head1(b))
  {
    SplitNoSep(b, ' ');
    SplitPrefix(a, ' ', b);
    SplitPrefix(a, ' ', b + " " + rest);
    SplitPrefix(b, ' ', rest);
    assert a + " " + b + " " + rest == a + [' '] + (b + [' '] + rest);
  }

  /** A leading space leaves the first word empty and the badge one letter. */
  lemma LeadingSpace(b: string)
    requires ' ' !in b
    ensures Initials(" " + b) == Some(Head1(b))
  {
    InitialsOfFirstTwoWords("", b, "");
    assert "" + " " + b == " " + b;
    assert Head1("") + Head1(b) == Head1(b);
  }

  /** A name whose first space sits at `k`, with a first word before it and
      a non-space after it, is badged with those two letters; whatever follows
      the second word is ignored. */
  lemma FirstSpaceBadge(name: string, k: int)
    requires 0 < k < |name| - 1 && name[k] == ' ' && name[k + 1] != ' '
    requires forall i :: 0 <= i < k ==> name[i] != ' '
    ensures Initials(name) == Some([name[0], name[k + 1]])
  {
    var a, b := name[..k], name[k + 1..];
    assert name == a + [' '] + b;
    assert ' ' !in a by {
      forall i | 0 <= i < |a| ensures a[i] != ' ' {
        assert a[i] == name[i];
      }
    }
    SplitPrefix(a, ' ', b);
    assert b[0] == name[k + 1];
    assert Split(b, ' ')[0] == [b[0]] + Split(b[1..], ' ')[0];
    assert Head1(a) + Head1(Split(b, ' ')[0]) == [name[0], name[k + 1]];
  }

  /** Every name on the team is two words, so every badge has two letters. */
  lemma TeamBadgesRender()
    ensures forall m :: 0 <= m < |TeamMembers| ==>
      Initials(TeamMembers[m].name).Some? && |Initials(TeamMembers[m].name).value| == 2
  {
    forall m | 0 <= m < |TeamMembers|
      ensures Initials(TeamMembers[m].name).Some? && |Initials(TeamMembers[m].name).value| == 2
    {
      MemberBadge(m, FirstSpace(m));
    }
  }

  /** The index of the first space in each team member's name. */
  function FirstSpace(m: int): (k: int)
    ensures 0 <= m < |TeamMembers| ==>
      0 < k < |TeamMembers[m].name| - 1 && TeamMembers[m].name[k] == ' '
  {
    if m == 0 then 4 else if m == 1 then 5 else if m == 2 then 6
    else if m == 3 then 5 else if m == 4 then 5 else 6
  }

  /** One team member's name has its first space at `k`. */
  lemma MemberBadge(m: int, k: int)
    requires 0 <= m < |TeamMembers|
    requires 0 < k < |TeamMembers[m].name| - 1
    requires TeamMembers[m].name[k] == ' ' && TeamMembers[m].name[k + 1] != ' '
    requires forall i :: 0 <= i < k ==> TeamMembers[m].name[i] != ' '
    ensures Initials(TeamMembers[m].name).Some? && |Initials(TeamMembers[m].name).value| == 2
  {
    FirstSpaceBadge(TeamMembers[m].name, k);
  }

  /** The founder's badge reads "AM". */
  lemma FounderBadge()
    ensures Initials(TeamMembers[0].name) == Some("AM")
  {
    var n := TeamMembers[0].name;
    assert n == "Alex Morgan";
    FirstSpaceBadge(n, 4);
  }
}
