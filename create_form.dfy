/**
 * The tournament creation form (app/admin/create/page.tsx): the roster and rule
 * lists the admin edits, the count and team-size inputs that resize them, the
 * checks made before submission, and the rows the submission inserts.
 */
module CreateForm {
  import opened Wrappers
  import opened JsText
  import opened Records

  /** Bounds of the player and team count input. */
  const MinEntrants := 4
  const MaxEntrants := 32
  /** Bounds of the team size input. */
  const MinTeamSize := 1
  const MaxTeamSize := 10

  datatype PlayerEntry = PlayerEntry(name: string, tag: string)
  datatype Member = Member(name: string, ign: string)
  datatype TeamEntry = TeamEntry(name: string, tag: string, members: seq<Member>)
  datatype CompetitionType = Solo | TeamCompetition

  /** The field of a player or team entry that an edit changes. */
  datatype EntryField = NameField | TagField
  /** The field of a team member that an edit changes. */
  datatype MemberField = MemberName | MemberIgn

  const BlankPlayer := PlayerEntry("", "")
  const BlankMember := Member("", "")

  /** A new team: no name, no tag and teamSize blank members. */
  function BlankTeam(teamSize: nat): TeamEntry {
    TeamEntry("", "", seq(teamSize, _ => BlankMember))
  }

  /** Every team has exactly size members: the form keeps this, so a member index below the team size is always valid. */
  predicate TeamsSized(teams: seq<TeamEntry>, size: nat) {
    forall k :: 0 <= k < |teams| ==> |teams[k].members| == size
  }

  /** The whole form state. */
  datatype Form = Form(
    tournamentName: string,
    description: string,
    rules: seq<string>,
    competitionType: CompetitionType,
    teamSize: nat,
    desiredTeams: int,
    players: seq<PlayerEntry>,
    teams: seq<TeamEntry>,
    desiredPlayers: int)

  /** The form as it opens: solo, one blank rule, one blank player, one blank team of five, twelve players and eight teams wanted. */
  function InitialForm(): (f: Form)
    ensures f.competitionType == Solo && |f.players| == 1 && |f.teams| == 1 && f.rules == [""]
    ensures MinTeamSize <= f.teamSize <= MaxTeamSize && TeamsSized(f.teams, f.teamSize)
    ensures MinEntrants <= f.desiredPlayers <= MaxEntrants && MinEntrants <= f.desiredTeams <= MaxEntrants
    ensures f.tournamentName == "" && f.description == "" && f.teamSize == 5
    ensures f.players == [BlankPlayer] && f.teams == [BlankTeam(5)]
    ensures f.desiredPlayers == 12 && f.desiredTeams == 8
  {
    Form("", "", [""], Solo, 5, 8, [BlankPlayer], [BlankTeam(5)], 12)
  }

  // ---------------------------------------------------------------------
  // count inputs

  /** Math.max(lo, Math.min(hi, v)): v moved into [lo, hi], and unchanged when already there. */
  function Clamp(lo: int, hi: int, v: int): (r: int)
    requires lo <= hi
    ensures lo <= r <= hi
    ensures lo <= v <= hi ==> r == v
    ensures v < lo ==> r == lo
    ensures v > hi ==> r == hi
  {
    Max(lo, Min(hi, v))
  }

  /**
   * A copy of s of length n: a shorter list is padded with blank entries, a
   * longer one is cut, and the first min(|s|, n) entries are kept.
   */
  function Resize<T>(s: seq<T>, n: nat, blank: T): (r: seq<T>)
    ensures |r| == n
    ensures forall i :: 0 <= i < |s| && i < n ==> r[i] == s[i]
    ensures forall i :: |s| <= i < n ==> r[i] == blank
  {
    if |s| < n then s + seq(n - |s|, _ => blank)
    else if |s| > n then s[..n]
    else s
  }

  /** Growing a list and shrinking it back to its old length gives the list back. */
  lemma ResizeUndo<T>(s: seq<T>, n: nat, blank: T)
    requires |s| <= n
    ensures Resize(Resize(s, n, blank), |s|, blank) == s
  {
    var r := Resize(Resize(s, n, blank), |s|, blank);
    assert forall i :: 0 <= i < |s| ==> r[i] == s[i];
  }

  /** The solo count input: the new count, clamped into [4, 32], and the player list resized to it. */
  function OnPlayerCountChange(players: seq<PlayerEntry>, input: int): (r: (int, seq<PlayerEntry>))
    ensures MinEntrants <= r.0 <= MaxEntrants && |r.1| == r.0
    ensures MinEntrants <= input <= MaxEntrants ==> r.0 == input
    ensures forall i :: 0 <= i < |players| && i < r.0 ==> r.1[i] == players[i]
    ensures forall i :: |players| <= i < r.0 ==> r.1[i] == BlankPlayer
  {
    var val := Clamp(MinEntrants, MaxEntrants, input);
    (val, Resize(players, val, BlankPlayer))
  }

  /** The team count input: as for players, with new teams of the current team size. */
  function OnTeamCountChange(teams: seq<TeamEntry>, teamSize: nat, input: int): (r: (int, seq<TeamEntry>))
    ensures MinEntrants <= r.0 <= MaxEntrants && |r.1| == r.0
    ensures MinEntrants <= input <= MaxEntrants ==> r.0 == input
    ensures forall i :: 0 <= i < |teams| && i < r.0 ==> r.1[i] == teams[i]
    ensures forall i :: |teams| <= i < r.0 ==> r.1[i] == BlankTeam(teamSize)
    ensures TeamsSized(teams, teamSize) ==> TeamsSized(r.1, teamSize)
  {
    var val := Clamp(MinEntrants, MaxEntrants, input);
    (val, Resize(teams, val, BlankTeam(teamSize)))
  }

  /** Every team's members set to length size, member i kept whenever it existed. */
  function SetTeamSize(teams: seq<TeamEntry>, size: nat): (r: seq<TeamEntry>)
    ensures |r| == |teams|
    ensures forall k :: 0 <= k < |r| ==>
              && r[k].name == teams[k].name && r[k].tag == teams[k].tag
              && |r[k].members| == size
              && (forall i :: 0 <= i < size && i < |teams[k].members| ==> r[k].members[i] == teams[k].members[i])
              && (forall i :: |teams[k].members| <= i < size ==> r[k].members[i] == BlankMember)
  {
    seq(|teams|, k requires 0 <= k < |teams| =>
      teams[k].(members := seq(size, i requires 0 <= i < size =>
        if i < |teams[k].members| then teams[k].members[i] else BlankMember)))
  }

  /** Changing the team size resizes each member list exactly as the count input resizes the rosters. */
  lemma SetTeamSizeIsResize(teams: seq<TeamEntry>, size: nat)
    ensures forall k :: 0 <= k < |teams| ==>
              SetTeamSize(teams, size)[k] == teams[k].(members := Resize(teams[k].members, size, BlankMember))
  {
    var r := SetTeamSize(teams, size);
    forall k | 0 <= k < |teams|
      ensures r[k] == teams[k].(members := Resize(teams[k].members, size, BlankMember))
    {
      var want := Resize(teams[k].members, size, BlankMember);
      assert r[k].members == want;
    }
  }

  /** The team size input: the new size, clamped into [1, 10], and every team resized to it. */
  function OnTeamSizeChange(teams: seq<TeamEntry>, input: int): (r: (nat, seq<TeamEntry>))
    ensures MinTeamSize <= r.0 <= MaxTeamSize
    ensures MinTeamSize <= input <= MaxTeamSize ==> r.0 == input
    ensures |r.1| == |teams| && TeamsSized(r.1, r.0)
    // every team is resized as SetTeamSize does, keeping the members that existed
    ensures r.1 == SetTeamSize(teams, r.0)
    ensures forall k :: 0 <= k < |teams| ==> r.1[k].name == teams[k].name && r.1[k].tag == teams[k].tag
  {
    var val := Clamp(MinTeamSize, MaxTeamSize, input);
    (val, SetTeamSize(teams, val))
  }

  // ---------------------------------------------------------------------
  // add, remove, update

  /** Appends one blank entry while the list is below the desired count; a full list is left as it is. */
  function AddBounded<T>(s: seq<T>, desired: int, blank: T): (r: seq<T>)
    ensures |r| == |s| + 1 <==> |s| < desired
    ensures |r| == |s| <==> |s| >= desired
    ensures r[..|s|] == s
    ensures |r| > |s| ==> r[|s|] == blank
    // the list never grows past the desired count
    ensures |s| <= desired ==> |r| <= desired
  {
    if |s| < desired then s + [blank] else s
  }

  /** The add-player button: a blank player while the roster is below the chosen count. */
  function AddPlayer(players: seq<PlayerEntry>, desiredPlayers: int): (r: seq<PlayerEntry>)
    ensures |players| < desiredPlayers ==> r == players + [BlankPlayer]
    ensures |players| >= desiredPlayers ==> r == players
  {
    AddBounded(players, desiredPlayers, BlankPlayer)
  }

  /** The add-team button: a blank team of the current size while the list is below the chosen count. */
  function AddTeam(teams: seq<TeamEntry>, desiredTeams: int, teamSize: nat): (r: seq<TeamEntry>)
    ensures |teams| < desiredTeams ==> r == teams + [BlankTeam(teamSize)]
    ensures |teams| >= desiredTeams ==> r == teams
    ensures TeamsSized(teams, teamSize) ==> TeamsSized(r, teamSize)
  {
    AddBounded(teams, desiredTeams, BlankTeam(teamSize))
  }

  /** Rules have no bound: one blank rule is always appended. */
  function AddRule(rules: seq<string>): (r: seq<string>)
    ensures |r| == |rules| + 1 && r[..|rules|] == rules && r[|rules|] == ""
  {
    rules + [""]
  }

  /** `s.filter((_, i) => i !== index)`: the entries whose position is not index, in their order. */
  function RemoveAt<T>(s: seq<T>, index: int): (r: seq<T>)
    ensures |r| == if 0 <= index < |s| then |s| - 1 else |s|
  {
    if |s| == 0 then []
    else RemoveAt(s[..|s| - 1], index) + (if |s| - 1 != index then [s[|s| - 1]] else [])
  }

  /** Removing a team keeps every remaining team at the team size. */
  lemma RemoveKeepsTeamsSized(teams: seq<TeamEntry>, index: int, size: nat)
    requires TeamsSized(teams, size)
    ensures TeamsSized(RemoveAt(teams, index), size)
  {
    RemoveAtDropsOne(teams, index);
  }

  /** Removing drops exactly the entry at the index and keeps the others in order; any other index removes nothing. */
  lemma {:induction false} RemoveAtDropsOne<T>(s: seq<T>, index: int)
    ensures 0 <= index < |s| ==> RemoveAt(s, index) == s[..index] + s[index + 1..]
    ensures !(0 <= index < |s|) ==> RemoveAt(s, index) == s
  {
    if |s| > 0 {
      var init, last := s[..|s| - 1], s[|s| - 1];
      assert s == init + [last];
      RemoveAtDropsOne(init, index);
      if index == |s| - 1 {
        assert RemoveAt(s, index) == init;
        assert s[..index] == init && s[index + 1..] == [];
      } else if 0 <= index < |s| - 1 {
        var front, back := init[..index], init[index + 1..];
        assert RemoveAt(s, index) == (front + back) + [last];
        assert front == s[..index];
        assert back + [last] == s[index + 1..];
        assert (front + back) + [last] == front + (back + [last]);
      } else {
        assert RemoveAt(s, index) == init + [last];
      }
    }
  }

  /** `const updated = [...s]; updated[index] = value`: a copy that differs from s at index only. */
  method UpdateAt<T>(s: seq<T>, index: nat, value: T) returns (updated: seq<T>)
    requires index < |s|
    ensures |updated| == |s| && updated[index] == value
    ensures forall i :: 0 <= i < |s| && i != index ==> updated[i] == s[i]
  {
    var copy := new T[|s|](i requires 0 <= i < |s| => s[i]);
    copy[index] := value;
    updated := copy[..];
  }

  method UpdateRule(rules: seq<string>, index: nat, value: string) returns (updated: seq<string>)
    requires index < |rules|
    ensures |updated| == |rules| && updated[index] == value
    ensures forall i :: 0 <= i < |rules| && i != index ==> updated[i] == rules[i]
  {
    updated := UpdateAt(rules, index, value);
  }

  method UpdatePlayer(players: seq<PlayerEntry>, index: nat, field: EntryField, value: string)
    returns (updated: seq<PlayerEntry>)
    requires index < |players|
    ensures |updated| == |players|
    ensures field == NameField ==> updated[index] == players[index].(name := value)
    ensures field == TagField ==> updated[index] == players[index].(tag := value)
    ensures forall i :: 0 <= i < |players| && i != index ==> updated[i] == players[i]
  {
    var entry := if field == NameField then players[index].(name := value) else players[index].(tag := value);
    updated := UpdateAt(players, index, entry);
  }

  method UpdateTeamField(teams: seq<TeamEntry>, index: nat, field: EntryField, value: string)
    returns (updated: seq<TeamEntry>)
    requires index < |teams|
    ensures |updated| == |teams|
    ensures field == NameField ==> updated[index] == teams[index].(name := value)
    ensures field == TagField ==> updated[index] == teams[index].(tag := value)
    ensures forall i :: 0 <= i < |teams| && i != index ==> updated[i] == teams[i]
    // editing a team's name or tag leaves its roster as it was
    ensures updated[index].members == teams[index].members
  {
    var entry := if field == NameField then teams[index].(name := value) else teams[index].(tag := value);
    updated := UpdateAt(teams, index, entry);
  }

  /**
   * Copies the team list and that team's member list, and changes one field of one member.
   * The index bounds hold for every member index below the team size, since TeamsSized holds
   * of the form's teams after every other edit; the edit keeps it in turn.
   */
  method UpdateMember(teams: seq<TeamEntry>, teamIdx: nat, memberIdx: nat, field: MemberField, value: string)
    returns (updated: seq<TeamEntry>)
    requires teamIdx < |teams| && memberIdx < |teams[teamIdx].members|
    ensures |updated| == |teams|
    ensures forall i :: 0 <= i < |teams| && i != teamIdx ==> updated[i] == teams[i]
    ensures var t, u := teams[teamIdx], updated[teamIdx];
            && u.name == t.name && u.tag == t.tag && |u.members| == |t.members|
            && (forall j :: 0 <= j < |t.members| && j != memberIdx ==> u.members[j] == t.members[j])
            && u.members[memberIdx] == (if field == MemberName then t.members[memberIdx].(name := value)
                                        else t.members[memberIdx].(ign := value))
    ensures forall size: nat :: TeamsSized(teams, size) ==> TeamsSized(updated, size)
  {
    var t := teams[teamIdx];
    var m := t.members[memberIdx];
    var edited := if field == MemberName then m.(name := value) else m.(ign := value);
    var members := UpdateAt(t.members, memberIdx, edited);
    updated := UpdateAt(teams, teamIdx, t.(members := members));
  }

  // ---------------------------------------------------------------------
  // filters

  /** `s.filter(keep)`: the entries keep accepts, in their order. */
  function Filter<T>(s: seq<T>, keep: T -> bool): (r: seq<T>)
    ensures |r| <= |s|
    ensures forall x :: x in r ==> keep(x) && x in s
  {
    if |s| == 0 then []
    else (if keep(s[0]) then [s[0]] else []) + Filter(s[1..], keep)
  }

  /** Filtering a concatenation filters each part. */
  lemma {:induction false} FilterAppend<T>(a: seq<T>, b: seq<T>, keep: T -> bool)
    ensures Filter(a + b, keep) == Filter(a, keep) + Filter(b, keep)
  {
    if |a| > 0 {
      assert (a + b)[1..] == a[1..] + b;
      FilterAppend(a[1..], b, keep);
    } else {
      assert a + b == b;
    }
  }

  /** An entry keep accepts occurs in the filtered list as often as in the list; other entries not at all. */
  lemma {:induction false} FilterCounts<T>(s: seq<T>, keep: T -> bool)
    ensures forall x :: multiset(Filter(s, keep))[x] == if keep(x) then multiset(s)[x] else 0
  {
    if |s| > 0 {
      FilterCounts(s[1..], keep);
      assert s == [s[0]] + s[1..];
    }
  }

  /** When every entry is accepted the filter returns the list itself. */
  lemma {:induction false} FilterAllKept<T>(s: seq<T>, keep: T -> bool)
    requires forall i :: 0 <= i < |s| ==> keep(s[i])
    ensures Filter(s, keep) == s
  {
    if |s| > 0 {
      var t := s[1..];
      assert forall i :: 0 <= i < |t| ==> keep(t[i]) by {
        forall i | 0 <= i < |t| ensures keep(t[i]) { assert t[i] == s[i + 1]; }
      }
      FilterAllKept(t, keep);
      assert Filter(s, keep) == [s[0]] + t;
    }
  }

  /** An entry that is not accepted makes the filtered list shorter. */
  lemma {:induction false} FilterDropsRejected<T>(s: seq<T>, keep: T -> bool, i: nat)
    requires i < |s| && !keep(s[i])
    ensures |Filter(s, keep)| < |s|
  {
    var t := s[1..];
    var f := Filter(t, keep);
    if i == 0 || !keep(s[0]) {
      assert Filter(s, keep) == f;
    } else {
      assert !keep(t[i - 1]);
      FilterDropsRejected(t, keep, i - 1);
      assert Filter(s, keep) == [s[0]] + f;
    }
  }

  /** Nothing is filtered out exactly when every entry is accepted. */
  lemma FilterKeepsAll<T>(s: seq<T>, keep: T -> bool)
    ensures |Filter(s, keep)| == |s| <==> forall i :: 0 <= i < |s| ==> keep(s[i])
    ensures (forall i :: 0 <= i < |s| ==> keep(s[i])) ==> Filter(s, keep) == s
  {
    if forall i :: 0 <= i < |s| ==> keep(s[i]) {
      FilterAllKept(s, keep);
    } else {
      var i :| 0 <= i < |s| && !keep(s[i]);
      FilterDropsRejected(s, keep, i);
    }
  }

  predicate NamedPlayer(p: PlayerEntry) { !IsBlank(p.name) }
  predicate NamedMember(m: Member) { !IsBlank(m.name) }
  predicate NonBlankRule(r: string) { !IsBlank(r) }

  /** Blank padding added by the count input does not change who counts as entered. */
  lemma PaddingAddsNoPlayers(players: seq<PlayerEntry>, n: nat)
    requires |players| <= n
    ensures Filter(Resize(players, n, BlankPlayer), NamedPlayer) == Filter(players, NamedPlayer)
  {
    if |players| < n {
      var pad := seq(n - |players|, _ => BlankPlayer);
      assert Resize(players, n, BlankPlayer) == players + pad;
      FilterNoneKept(pad, NamedPlayer);
      FilterAppend(players, pad, NamedPlayer);
    }
  }

  /** A list with no accepted entry filters to nothing. */
  lemma {:induction false} FilterNoneKept<T>(s: seq<T>, keep: T -> bool)
    requires forall i :: 0 <= i < |s| ==> !keep(s[i])
    ensures Filter(s, keep) == []
  {
    if |s| > 0 {
      assert forall i :: 0 <= i < |s[1..]| ==> s[1..][i] == s[i + 1];
      FilterNoneKept(s[1..], keep);
    }
  }

  // ---------------------------------------------------------------------
  // validation

  datatype FormError =
    | MissingTournamentName
    | WrongPlayerCount(current: nat)
    | WrongTeamCount
    /** The team numbers below are 1-based, as in the messages shown. */
    | TeamMissingName(team: int)
    | WrongTeamSize(team: int)
    | UnnamedMembers(team: int)

  /** The three checks on one team, in the order the form makes them. */
  function TeamProblem(t: TeamEntry, teamSize: nat, number: int): Option<FormError> {
    if IsBlank(t.name) then Some(TeamMissingName(number))
    else if |t.members| != teamSize then Some(WrongTeamSize(number))
    else if |Filter(t.members, NamedMember)| != teamSize then Some(UnnamedMembers(number))
    else None
  }

  /** The problem of the first team from index from on that has one. */
  function FirstTeamProblem(teams: seq<TeamEntry>, teamSize: nat, from: nat): Option<FormError>
    requires from <= |teams|
    decreases |teams| - from
  {
    if from == |teams| then None
    else
      var p := TeamProblem(teams[from], teamSize, from + 1);
      if p.Some? then p else FirstTeamProblem(teams, teamSize, from + 1)
  }

  /** What createTournament reports before it writes anything, or None when it goes on. */
  function SubmissionProblem(f: Form): Option<FormError> {
    if IsBlank(f.tournamentName) then Some(MissingTournamentName)
    else if f.competitionType == Solo then
      var valid := |Filter(f.players, NamedPlayer)|;
      if valid != f.desiredPlayers then Some(WrongPlayerCount(valid)) else None
    else if |f.teams| != f.desiredTeams then Some(WrongTeamCount)
    else FirstTeamProblem(f.teams, f.teamSize, 0)
  }

  /** The checks of createTournament, with the team loop and its early returns. */
  method ValidateSubmission(f: Form) returns (err: Option<FormError>)
    ensures err == SubmissionProblem(f)
  {
    if IsBlank(f.tournamentName) {
      return Some(MissingTournamentName);
    }
    if f.competitionType == Solo {
      var valid := Filter(f.players, NamedPlayer);
      if |valid| != f.desiredPlayers {
        return Some(WrongPlayerCount(|valid|));
      }
    } else {
      if |f.teams| != f.desiredTeams {
        return Some(WrongTeamCount);
      }
      var i := 0;
      while i < |f.teams|
        invariant 0 <= i <= |f.teams|
        invariant FirstTeamProblem(f.teams, f.teamSize, 0) == FirstTeamProblem(f.teams, f.teamSize, i)
      {
        var t := f.teams[i];
        if IsBlank(t.name) {
          return Some(TeamMissingName(i + 1));
        }
        if |t.members| != f.teamSize {
          return Some(WrongTeamSize(i + 1));
        }
        var filled := Filter(t.members, NamedMember);
        if |filled| != f.teamSize {
          return Some(UnnamedMembers(i + 1));
        }
        i := i + 1;
      }
    }
    return None;
  }

  /** A team that passes: a name, exactly teamSize members, each of them named. */
  predicate TeamReady(t: TeamEntry, teamSize: nat) {
    && !IsBlank(t.name)
    && |t.members| == teamSize
    && forall j :: 0 <= j < |t.members| ==> NamedMember(t.members[j])
  }

  lemma TeamProblemNoneIffReady(t: TeamEntry, teamSize: nat, number: int)
    ensures TeamProblem(t, teamSize, number) == None <==> TeamReady(t, teamSize)
  {
    FilterKeepsAll(t.members, NamedMember);
  }

  /** When every team from index from on passes its checks, FirstTeamProblem finds nothing. */
  lemma {:induction false} FirstTeamProblemNoneWhenEach(teams: seq<TeamEntry>, teamSize: nat, from: nat)
    requires from <= |teams|
    requires forall i :: from <= i < |teams| ==> TeamProblem(teams[i], teamSize, i + 1) == None
    ensures FirstTeamProblem(teams, teamSize, from) == None
    decreases |teams| - from
  {
    if from < |teams| {
      FirstTeamProblemNoneWhenEach(teams, teamSize, from + 1);
    }
  }

  /** When FirstTeamProblem finds nothing, team i passes its checks. */
  lemma {:induction false} FirstTeamProblemNoneAt(teams: seq<TeamEntry>, teamSize: nat, from: nat, i: nat)
    requires from <= i < |teams|
    requires FirstTeamProblem(teams, teamSize, from) == None
    ensures TeamProblem(teams[i], teamSize, i + 1) == None
    decreases i - from
  {
    if from < i {
      FirstTeamProblemNoneAt(teams, teamSize, from + 1, i);
    }
  }

  /** FirstTeamProblem finds nothing exactly when each team from index from on passes its checks. */
  lemma FirstTeamProblemNoneIffEach(teams: seq<TeamEntry>, teamSize: nat, from: nat)
    requires from <= |teams|
    ensures FirstTeamProblem(teams, teamSize, from) == None <==>
              forall i :: from <= i < |teams| ==> TeamProblem(teams[i], teamSize, i + 1) == None
  {
    if FirstTeamProblem(teams, teamSize, from) == None {
      forall i | from <= i < |teams| ensures TeamProblem(teams[i], teamSize, i + 1) == None {
        FirstTeamProblemNoneAt(teams, teamSize, from, i);
      }
    } else if forall i :: from <= i < |teams| ==> TeamProblem(teams[i], teamSize, i + 1) == None {
      FirstTeamProblemNoneWhenEach(teams, teamSize, from);
    }
  }

  /** No team from index from on has a problem exactly when all of them are ready. */
  lemma FirstTeamProblemNoneIff(teams: seq<TeamEntry>, teamSize: nat, from: nat)
    requires from <= |teams|
    ensures FirstTeamProblem(teams, teamSize, from) == None <==>
              forall i :: from <= i < |teams| ==> TeamReady(teams[i], teamSize)
  {
    FirstTeamProblemNoneIffEach(teams, teamSize, from);
    forall i | from <= i < |teams|
      ensures TeamProblem(teams[i], teamSize, i + 1) == None <==> TeamReady(teams[i], teamSize)
    {
      TeamProblemNoneIffReady(teams[i], teamSize, i + 1);
    }
  }

  /** The problem reported is the one of the first team that is not ready, numbered from 1. */
  lemma {:induction false} FirstTeamProblemIsFirst(teams: seq<TeamEntry>, teamSize: nat, from: nat, k: nat)
    requires from <= k < |teams|
    requires forall i :: from <= i < k ==> TeamReady(teams[i], teamSize)
    requires !TeamReady(teams[k], teamSize)
    ensures FirstTeamProblem(teams, teamSize, from) == TeamProblem(teams[k], teamSize, k + 1) != None
    decreases k - from
  {
    TeamProblemNoneIffReady(teams[from], teamSize, from + 1);
    if from < k {
      FirstTeamProblemIsFirst(teams, teamSize, from + 1, k);
    }
  }

  /** A solo form is accepted exactly when it has a name and as many named players as the count asks for. */
  lemma SoloSubmissionAccepted(f: Form)
    requires f.competitionType == Solo
    ensures SubmissionProblem(f) == None <==>
              !IsBlank(f.tournamentName) && |Filter(f.players, NamedPlayer)| == f.desiredPlayers
    // with the list kept at the count by the count input, every entry must be named
    ensures |f.players| == f.desiredPlayers ==>
              (SubmissionProblem(f) == None <==>
                 !IsBlank(f.tournamentName) && forall i :: 0 <= i < |f.players| ==> NamedPlayer(f.players[i]))
  {
    FilterKeepsAll(f.players, NamedPlayer);
  }

  /** A team form is accepted exactly when it has a name, the desired number of teams and every team is ready. */
  lemma TeamSubmissionAccepted(f: Form)
    requires f.competitionType == TeamCompetition
    ensures SubmissionProblem(f) == None <==>
              && !IsBlank(f.tournamentName)
              && |f.teams| == f.desiredTeams
              && forall i :: 0 <= i < |f.teams| ==> TeamReady(f.teams[i], f.teamSize)
  {
    FirstTeamProblemNoneIff(f.teams, f.teamSize, 0);
  }

  // ---------------------------------------------------------------------
  // inserted rows

  /** `s || null`: the empty string becomes null. */
  function OrNull(s: string): (r: Option<string>)
    ensures r == None <==> s == ""
    ensures r.Some? ==> r.value == s
  {
    if s == "" then None else Some(s)
  }

  datatype TournamentRow = TournamentRow(
    name: string,
    description: Option<string>,
    rules: seq<string>,
    status: TournamentStatus,
    currentPhase: Option<Phase>,
    competitionType: CompetitionType,
    teamSize: int,
    maxTeams: int)

  datatype TeamRow = TeamRow(tournamentId: string, teamName: string, teamTag: Option<string>, seedPosition: int)

  /** A players row; solo rows leave team_id unset, which the model writes as None. */
  datatype PlayerRow = PlayerRow(
    tournamentId: string,
    teamId: Option<string>,
    playerName: string,
    playerTag: Option<string>,
    seedPosition: Option<int>)

  /** The tournaments row: a new tournament in setup with no phase, keeping only the non-blank rules. */
  function TournamentInsert(f: Form): (r: TournamentRow)
    ensures r.name == f.tournamentName && r.status == Setup && r.currentPhase == None
    ensures r.description == OrNull(f.description) && r.competitionType == f.competitionType
    ensures forall x :: x in r.rules ==> !IsBlank(x) && x in f.rules
    ensures r.teamSize == (if f.competitionType == TeamCompetition then f.teamSize else 1)
    ensures r.maxTeams == (if f.competitionType == TeamCompetition then f.desiredTeams else f.desiredPlayers)
  {
    TournamentRow(
      f.tournamentName,
      OrNull(f.description),
      Filter(f.rules, NonBlankRule),
      Setup,
      None,
      f.competitionType,
      if f.competitionType == TeamCompetition then f.teamSize else 1,
      if f.competitionType == TeamCompetition then f.desiredTeams else f.desiredPlayers)
  }

  /** Every non-blank rule is saved, as often as it was entered; no blank rule is. */
  lemma SavedRulesExact(f: Form)
    ensures forall x :: multiset(TournamentInsert(f).rules)[x] == if IsBlank(x) then 0 else multiset(f.rules)[x]
  {
    FilterCounts(f.rules, NonBlankRule);
  }

  /** Solo player rows: the named entries in their order, seeded 1, 2, ..., k. */
  function SoloInserts(tournamentId: string, players: seq<PlayerEntry>): (r: seq<PlayerRow>)
    ensures var valid := Filter(players, NamedPlayer);
            && |r| == |valid|
            && forall i :: 0 <= i < |r| ==>
                 && r[i].tournamentId == tournamentId && r[i].teamId == None
                 && r[i].playerName == valid[i].name
                 && r[i].playerTag == OrNull(valid[i].tag)
                 && r[i].seedPosition == Some(i + 1)
  {
    var valid := Filter(players, NamedPlayer);
    seq(|valid|, i requires 0 <= i < |valid| =>
      PlayerRow(tournamentId, None, valid[i].name, OrNull(valid[i].tag), Some(i + 1)))
  }

  /** Every inserted solo player has a non-blank name, and each named entry is inserted as often as it was entered. */
  lemma SoloInsertsNamed(tournamentId: string, players: seq<PlayerEntry>)
    ensures var r := SoloInserts(tournamentId, players);
            forall i :: 0 <= i < |r| ==> !IsBlank(r[i].playerName)
    ensures forall p :: NamedPlayer(p) ==> multiset(Filter(players, NamedPlayer))[p] == multiset(players)[p]
  {
    var valid := Filter(players, NamedPlayer);
    forall i | 0 <= i < |valid| ensures NamedPlayer(valid[i]) { assert valid[i] in valid; }
    FilterCounts(players, NamedPlayer);
  }

  /** An accepted solo form inserts exactly the desired number of players, with distinct seeds. */
  lemma AcceptedSoloSeeds(f: Form, tournamentId: string)
    requires f.competitionType == Solo && SubmissionProblem(f) == None
    ensures var r := SoloInserts(tournamentId, f.players);
            && |r| == f.desiredPlayers
            && forall i, j :: 0 <= i < |r| && 0 <= j < |r| && i != j ==> r[i].seedPosition != r[j].seedPosition
  {
  }

  /** Team rows, one per team in order, seeded from 1. */
  function TeamInserts(tournamentId: string, teams: seq<TeamEntry>): (r: seq<TeamRow>)
    ensures |r| == |teams|
    ensures forall i :: 0 <= i < |r| ==>
              && r[i].tournamentId == tournamentId && r[i].teamName == teams[i].name
              && r[i].teamTag == OrNull(teams[i].tag) && r[i].seedPosition == i + 1
  {
    seq(|teams|, i requires 0 <= i < |teams| =>
      TeamRow(tournamentId, teams[i].name, OrNull(teams[i].tag), i + 1))
  }

  /** `insertedTeams?.[idx]?.id`: the id of the idx-th returned team row, when there is one. */
  function TeamIdAt(insertedTeamIds: seq<string>, idx: nat): Option<string> {
    if idx < |insertedTeamIds| then Some(insertedTeamIds[idx]) else None
  }

  function MemberRow(tournamentId: string, teamId: Option<string>, m: Member): PlayerRow {
    PlayerRow(tournamentId, teamId, m.name, OrNull(m.ign), None)
  }

  /** The player rows of one team's members, in member order. */
  function TeamMemberRows(tournamentId: string, t: TeamEntry, teamId: Option<string>): (r: seq<PlayerRow>)
    ensures |r| == |t.members|
    ensures forall j :: 0 <= j < |r| ==> r[j] == MemberRow(tournamentId, teamId, t.members[j])
  {
    seq(|t.members|, j requires 0 <= j < |t.members| => MemberRow(tournamentId, teamId, t.members[j]))
  }

  /** The member rows of the first n teams, team by team. */
  function AllMemberRows(tournamentId: string, teams: seq<TeamEntry>, insertedTeamIds: seq<string>, n: nat): seq<PlayerRow>
    requires n <= |teams|
  {
    if n == 0 then []
    else AllMemberRows(tournamentId, teams, insertedTeamIds, n - 1)
         + TeamMemberRows(tournamentId, teams[n - 1], TeamIdAt(insertedTeamIds, n - 1))
  }

  /** The forEach over teams and members that fills playersToInsert. */
  method TeamMemberInserts(tournamentId: string, teams: seq<TeamEntry>, insertedTeamIds: seq<string>)
    returns (rows: seq<PlayerRow>)
    ensures rows == AllMemberRows(tournamentId, teams, insertedTeamIds, |teams|)
  {
    rows := [];
    var idx := 0;
    while idx < |teams|
      invariant 0 <= idx <= |teams|
      invariant rows == AllMemberRows(tournamentId, teams, insertedTeamIds, idx)
    {
      var t := teams[idx];
      var teamId := TeamIdAt(insertedTeamIds, idx);
      ghost var before := rows;
      var j := 0;
      while j < |t.members|
        invariant 0 <= j <= |t.members|
        invariant rows == before + TeamMemberRows(tournamentId, t, teamId)[..j]
      {
        var m := t.members[j];
        rows := rows + [PlayerRow(tournamentId, teamId, m.name, OrNull(m.ign), None)];
        assert TeamMemberRows(tournamentId, t, teamId)[..j + 1]
            == TeamMemberRows(tournamentId, t, teamId)[..j] + [MemberRow(tournamentId, teamId, m)];
        j := j + 1;
      }
      assert TeamMemberRows(tournamentId, t, teamId)[..j] == TeamMemberRows(tournamentId, t, teamId);
      idx := idx + 1;
    }
  }

  /** With every team at teamSize members, the first n teams give n * teamSize rows. */
  lemma {:induction false} MemberRowsLength(tournamentId: string, teams: seq<TeamEntry>, insertedTeamIds: seq<string>,
                                            teamSize: nat, n: nat)
    requires n <= |teams|
    requires forall k :: 0 <= k < |teams| ==> |teams[k].members| == teamSize
    ensures |AllMemberRows(tournamentId, teams, insertedTeamIds, n)| == n * teamSize
  {
    if n > 0 {
      MemberRowsLength(tournamentId, teams, insertedTeamIds, teamSize, n - 1);
      assert (n - 1) * teamSize + teamSize == n * teamSize;
    }
  }

  /**
   * With every team at teamSize members, member j of team k is row k * teamSize + j:
   * it carries that team's returned id, that member's name and no seed.
   */
  lemma {:induction false} MemberRowAt(tournamentId: string, teams: seq<TeamEntry>, insertedTeamIds: seq<string>,
                                       teamSize: nat, n: nat, k: nat, j: nat)
    requires n <= |teams|
    requires forall k :: 0 <= k < |teams| ==> |teams[k].members| == teamSize
    requires k < n && j < teamSize
    ensures var r := AllMemberRows(tournamentId, teams, insertedTeamIds, n);
            && k * teamSize + j < |r|
            && r[k * teamSize + j] == MemberRow(tournamentId, TeamIdAt(insertedTeamIds, k), teams[k].members[j])
  {
    var prev := AllMemberRows(tournamentId, teams, insertedTeamIds, n - 1);
    var last := TeamMemberRows(tournamentId, teams[n - 1], TeamIdAt(insertedTeamIds, n - 1));
    assert AllMemberRows(tournamentId, teams, insertedTeamIds, n) == prev + last;
    MemberRowsLength(tournamentId, teams, insertedTeamIds, teamSize, n - 1);
    if k < n - 1 {
      MemberRowAt(tournamentId, teams, insertedTeamIds, teamSize, n - 1, k, j);
      assert (prev + last)[k * teamSize + j] == prev[k * teamSize + j];
    } else {
      assert k * teamSize + j == |prev| + j;
      assert (prev + last)[|prev| + j] == last[j];
    }
  }
}
