/**
 * `admin_results`: for each of the four offices, the candidates registered for it in
 * registry order, each with the number of ballots whose field for that office is
 * exactly the candidate's name.
 */
module Tally {
  import opened Wrappers
  import opened Text
  import opened Records
  import Workflow

  /** The offices `admin_results` reports, in the order it reports them. */
  const Positions: seq<string> := ["President", "Vice President", "Secretary", "Treasurer"]

  /** The `Vote` column that holds an office's selection: `pos.lower().replace(" ", "_")`. */
  function ColumnOf(position: string): string {
    ReplaceChar(Lower(position), ' ', '_')
  }

  /** The field of a ballot for the office `Positions[i]`, read by name rather than through a column string. */
  function OfficeField(i: nat, v: Vote): string
    requires i < 4
  {
    if i == 0 then v.president
    else if i == 1 then v.vicePresident
    else if i == 2 then v.secretary
    else v.treasurer
  }

  /** The column computed from each office's name is the attribute of `Vote` that holds that office's selection. */
  lemma ColumnsAreFields(i: nat, v: Vote)
    requires i < 4
    ensures v.Selection(ColumnOf(Positions[i])) == Some(OfficeField(i, v))
  {
    if i == 0 {
      assert ColumnOf(Positions[0]) == "president";
    } else if i == 1 {
      assert ColumnOf(Positions[1]) == "vice_president";
    } else if i == 2 {
      assert ColumnOf(Positions[2]) == "secretary";
    } else {
      assert ColumnOf(Positions[3]) == "treasurer";
    }
  }

  /** One row of the results page. */
  datatype Entry = Entry(name: string, votes: nat, image: Option<string>)

  /** One office's part of the results page. */
  datatype Standing = Standing(position: string, entries: seq<Entry>)

  /** `Candidate.query.filter_by(position=pos).all()`: the candidates for one office, in registry order. */
  function OfPosition(cs: seq<Candidate>, position: string): (r: seq<Candidate>)
    ensures |r| <= |cs|
    ensures forall c :: c in r ==> c in cs && c.position == position
    ensures forall c :: c in cs && c.position == position ==> c in r
  {
    if cs == [] then []
    else
      var rest := OfPosition(cs[1..], position);
      assert forall c :: c in cs ==> c == cs[0] || c in cs[1..];
      (if cs[0].position == position then [cs[0]] else []) + rest
  }

  /** Filtering distributes over concatenation, so registry order is kept. */
  lemma {:induction false} OfPositionAppend(a: seq<Candidate>, b: seq<Candidate>, position: string)
    ensures OfPosition(a + b, position) == OfPosition(a, position) + OfPosition(b, position)
  {
    if a != [] {
      assert (a + b)[1..] == a[1..] + b;
      OfPositionAppend(a[1..], b, position);
    } else {
      assert a + b == b;
    }
  }

  /** `Vote.query.filter(<column> == name)`: the roll numbers whose ballot holds `name` in `column`. */
  function Backers(votes: map<string, Vote>, column: string, name: string): set<string> {
    set r | r in votes && votes[r].Selection(column) == Some(name)
  }

  /** The inner loop of `admin_results` for one office. */
  function Entries(votes: map<string, Vote>, cs: seq<Candidate>, position: string): seq<Entry> {
    var column := ColumnOf(position);
    var chosen := OfPosition(cs, position);
    seq(|chosen|, j requires 0 <= j < |chosen| =>
      Entry(chosen[j].name, |Backers(votes, column, chosen[j].name)|, chosen[j].image))
  }

  /** The number of ballots naming `name` for the office `Positions[i]`. */
  function CountFor(votes: map<string, Vote>, i: nat, name: string): nat
    requires i < 4
  {
    |set r | r in votes && OfficeField(i, votes[r]) == name|
  }

  /** `s` is office `i`'s standing: one entry per candidate for that office, in registry order, counted from the ballots. */
  ghost predicate Reports(st: State, i: nat, s: Standing)
    requires i < 4
  {
    var chosen := OfPosition(st.candidates, Positions[i]);
    && s.position == Positions[i]
    && |s.entries| == |chosen|
    && forall j :: 0 <= j < |chosen| ==>
         s.entries[j] == Entry(chosen[j].name, CountFor(st.votes, i, chosen[j].name), chosen[j].image)
  }

  /** `admin_results`: behind the admin gate; reads the state and changes nothing. */
  function ComputeResults(st: State): (r: Reply<seq<Standing>>)
    ensures r.state == st
    ensures r.outcome.Ok? <==> st.admin
    ensures !st.admin ==> r.outcome == Err(AdminRequired)
    ensures r.outcome.Ok? ==>
              && |r.outcome.value| == 4
              && forall i :: 0 <= i < 4 ==> Reports(st, i, r.outcome.value[i])
  {
    if !st.admin then Reply(Err(AdminRequired), st)
    else
      var standings := seq(4, i requires 0 <= i < 4 => Standing(Positions[i], Entries(st.votes, st.candidates, Positions[i])));
      assert forall i :: 0 <= i < 4 ==> Reports(st, i, standings[i]) by {
        forall i | 0 <= i < 4
          ensures Reports(st, i, standings[i])
        {
          EntriesCount(st, i);
        }
      }
      Reply(Ok(standings), st)
  }

  /** Counting through the computed column agrees with counting the office's field directly. */
  lemma EntriesCount(st: State, i: nat)
    requires i < 4
    ensures var chosen := OfPosition(st.candidates, Positions[i]);
            var e := Entries(st.votes, st.candidates, Positions[i]);
            |e| == |chosen| &&
            forall j :: 0 <= j < |chosen| ==>
              e[j] == Entry(chosen[j].name, CountFor(st.votes, i, chosen[j].name), chosen[j].image)
  {
    var column := ColumnOf(Positions[i]);
    forall name: string
      ensures Backers(st.votes, column, name) == set r | r in st.votes && OfficeField(i, st.votes[r]) == name
    {
      forall r | r in st.votes {
        ColumnsAreFields(i, st.votes[r]);
      }
    }
  }

  /** A candidate whose position is none of the four offices never appears in the results. */
  lemma OtherPositionsIgnored(st: State, c: Candidate)
    requires c.position !in Positions
    ensures ComputeResults(st.(candidates := st.candidates + [c])).outcome == ComputeResults(st).outcome
  {
    var st' := st.(candidates := st.candidates + [c]);
    forall i | 0 <= i < 4
      ensures Entries(st'.votes, st'.candidates, Positions[i]) == Entries(st.votes, st.candidates, Positions[i])
    {
      OfPositionAppend(st.candidates, [c], Positions[i]);
      assert OfPosition([c], Positions[i]) == [];
    }
    if st.admin {
      assert ComputeResults(st').outcome.value == ComputeResults(st).outcome.value;
    }
  }

  /** Adding a ballot for a new roll number raises the count of the name it holds for office `i` by one, and no other. */
  lemma CountAfterInsert(votes: map<string, Vote>, roll: string, ballot: Vote, i: nat, name: string)
    requires i < 4 && roll !in votes
    ensures CountFor(votes[roll := ballot], i, name) == CountFor(votes, i, name) + (if OfficeField(i, ballot) == name then 1 else 0)
  {
    var votes' := votes[roll := ballot];
    var before := set r | r in votes && OfficeField(i, votes[r]) == name;
    var after := set r | r in votes' && OfficeField(i, votes'[r]) == name;
    if OfficeField(i, ballot) == name {
      assert after == before + {roll};
    } else {
      assert after == before;
    }
  }

  /**
   * A successful `vote` raises, for each office, exactly the count of the candidate named
   * on the new ballot, by one; every other count is unchanged.
   */
  lemma CastBallotCounts(st: State, sel: Workflow.Selections, i: nat, name: string)
    requires i < 4
    requires Workflow.CastBallot(st, sel).outcome.Ok?
    ensures var st' := Workflow.CastBallot(st, sel).state;
            var ballot := st'.votes[st.voter.value.roll];
            CountFor(st'.votes, i, name) == CountFor(st.votes, i, name) + (if OfficeField(i, ballot) == name then 1 else 0)
  {
    var st' := Workflow.CastBallot(st, sel).state;
    var roll := st.voter.value.roll;
    assert st'.votes == st.votes[roll := st'.votes[roll]];
    CountAfterInsert(st.votes, roll, st'.votes[roll], i, name);
  }

  /** The vote counts of a standing, added up. */
  function TotalVotes(entries: seq<Entry>): nat {
    if entries == [] then 0 else TotalVotes(entries[..|entries| - 1]) + entries[|entries| - 1].votes
  }

  /** The counts for a list of names, added up. */
  function SumCounts(votes: map<string, Vote>, i: nat, names: seq<string>): nat
    requires i < 4
  {
    if names == [] then 0 else SumCounts(votes, i, names[..|names| - 1]) + CountFor(votes, i, names[|names| - 1])
  }

  /** No name occurs twice. */
  predicate Distinct(names: seq<string>) {
    forall a, b :: 0 <= a < b < |names| ==> names[a] != names[b]
  }

  /** For distinct names, the summed counts are the number of ballots naming any of them. */
  lemma {:induction false} SumOfDistinct(votes: map<string, Vote>, i: nat, names: seq<string>)
    requires i < 4 && Distinct(names)
    ensures SumCounts(votes, i, names) == |set r | r in votes && OfficeField(i, votes[r]) in names|
  {
    if names != [] {
      var init := names[..|names| - 1];
      var last := names[|names| - 1];
      SumOfDistinct(votes, i, init);
      var a := set r | r in votes && OfficeField(i, votes[r]) in init;
      var b := set r | r in votes && OfficeField(i, votes[r]) == last;
      assert names == init + [last];
      assert last !in init;
      assert a !! b;
      forall r | r in votes
        ensures OfficeField(i, votes[r]) in names <==> r in a || r in b
      {
      }
      assert (set r | r in votes && OfficeField(i, votes[r]) in names) == a + b;
    }
  }

  /** A standing's total equals the summed counts of its names. */
  lemma {:induction false} TotalOfEntries(votes: map<string, Vote>, i: nat, entries: seq<Entry>, names: seq<string>)
    requires i < 4 && |entries| == |names|
    requires forall j :: 0 <= j < |names| ==> entries[j].votes == CountFor(votes, i, names[j])
    ensures TotalVotes(entries) == SumCounts(votes, i, names)
  {
    if entries != [] {
      TotalOfEntries(votes, i, entries[..|entries| - 1], names[..|names| - 1]);
    }
  }

  /** The names of a list of candidates. */
  function Names(cs: seq<Candidate>): (r: seq<string>)
    ensures |r| == |cs| && forall j :: 0 <= j < |cs| ==> r[j] == cs[j].name
  {
    seq(|cs|, j requires 0 <= j < |cs| => cs[j].name)
  }

  /**
   * When no two candidates for an office share a name, the office's counts add up to at
   * most the number of ballots cast.
   */
  lemma TotalAtMostBallots(st: State, i: nat)
    requires i < 4 && st.admin
    requires Distinct(Names(OfPosition(st.candidates, Positions[i])))
    ensures TotalVotes(ComputeResults(st).outcome.value[i].entries) <= |st.votes|
  {
    var s := ComputeResults(st).outcome.value[i];
    var names := Names(OfPosition(st.candidates, Positions[i]));
    TotalOfEntries(st.votes, i, s.entries, names);
    SumOfDistinct(st.votes, i, names);
    var named := set r | r in st.votes && OfficeField(i, st.votes[r]) in names;
    SubsetSize(named, st.votes.Keys);
  }

  /** A subset is no larger than its superset. */
  lemma {:induction false} SubsetSize<T>(a: set<T>, b: set<T>)
    requires a <= b
    ensures |a| <= |b|
  {
    if a != {} {
      var x :| x in a;
      SubsetSize(a - {x}, b - {x});
    }
  }

  /** Two candidates sharing a name both receive every ballot for that name, so the total can exceed the ballots. */
  lemma DuplicateNamesCountTwice()
    ensures var x := Candidate("X", "President", None);
            var st := State(map[], map[], 1, None, None, true, map["CS101" := Vote("CS101", "X", "Y", "Z", "W")], [x, x]);
            TotalVotes(ComputeResults(st).outcome.value[0].entries) == 2 > |st.votes|
  {
    var x := Candidate("X", "President", None);
    var st := State(map[], map[], 1, None, None, true, map["CS101" := Vote("CS101", "X", "Y", "Z", "W")], [x, x]);
    assert OfPosition(st.candidates, Positions[0]) == [x, x];
    assert (set r | r in st.votes && OfficeField(0, st.votes[r]) == "X") == {"CS101"};
    var e := ComputeResults(st).outcome.value[0].entries;
    assert e == [Entry("X", 1, None), Entry("X", 1, None)];
    var one := [Entry("X", 1, None)];
    assert one[..0] == [];
    assert TotalVotes(one) == 1;
    assert e[..1] == one;
    assert TotalVotes(e) == 2;
    assert |st.votes| == 1;
  }
}
