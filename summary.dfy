/** The tracker's reports: per-position counts by class year and by development
    trait, and player totals per squad group. Each report is a fold over a list
    of positions that reads the current roster snapshot and changes nothing. */
module Summary {
  import opened Roster
  import opened Store

  /** The five class-year columns of the class summary. */
  datatype YearBucket = Recruit | Freshman | Sophomore | Junior | Senior

  /** The test a player's year must pass to be counted in `bucket`: a redshirt
      year is counted with its base year. */
  predicate InYearBucket(year: string, bucket: YearBucket)
  {
    match bucket
    case Recruit => year == "RC"
    case Freshman => year == "FR" || year == "FR(RS)"
    case Sophomore => year == "SO" || year == "SO(RS)"
    case Junior => year == "JR" || year == "JR(RS)"
    case Senior => year == "SR" || year == "SR(RS)"
  }

  /** The number of players in `players` whose year falls in `bucket`:
      the length of the filtered list. */
  function CountYear(players: seq<Player>, bucket: YearBucket): (n: nat)
    ensures n <= |players|
  {
    if players == [] then 0
    else CountYear(players[..|players| - 1], bucket)
         + (if InYearBucket(players[|players| - 1].year, bucket) then 1 else 0)
  }

  /** The number of players in `players` whose year is one of the year options. */
  function CountValidYears(players: seq<Player>): nat
  {
    if players == [] then 0
    else CountValidYears(players[..|players| - 1])
         + (if players[|players| - 1].year in YearOptions then 1 else 0)
  }

  /** One row of the class summary. */
  datatype YearCounts = YearCounts(
    recruit: nat, freshman: nat, sophomore: nat, junior: nat, senior: nat, totalPlayers: nat)

  function BucketSum(c: YearCounts): nat
  {
    c.recruit + c.freshman + c.sophomore + c.junior + c.senior
  }

  /** A row of the class summary for one position's list: every bucket counts
      some of the players, and TotalPlayers is the list length. */
  function YearCountsOf(players: seq<Player>): (row: YearCounts)
    ensures row.totalPlayers == |players|
    ensures row.recruit <= |players| && row.freshman <= |players| && row.sophomore <= |players|
         && row.junior <= |players| && row.senior <= |players|
  {
    YearCounts(CountYear(players, Recruit), CountYear(players, Freshman), CountYear(players, Sophomore),
               CountYear(players, Junior), CountYear(players, Senior), |players|)
  }

  /** `countPlayersByYearAndPosition(positionList)`: one row per listed position,
      computed from that position's current list. */
  function CountPlayersByYearAndPosition(r: Roster, positionList: seq<Position>): (summary: map<Position, YearCounts>)
    ensures summary.Keys == set pos | pos in positionList
    ensures forall pos :: pos in summary ==> summary[pos] == YearCountsOf(r[pos])
  {
    if positionList == [] then map[]
    else
      var last := positionList[|positionList| - 1];
      CountPlayersByYearAndPosition(r, positionList[..|positionList| - 1])[last := YearCountsOf(r[last])]
  }

  /** The five development-trait columns of the trait summary; the trait "Gem"
      has no column. */
  datatype Trait = Normal | Impact | Star | Elite

  function TraitLabel(t: Trait): string
  {
    match t
    case Normal => "Normal"
    case Impact => "Impact"
    case Star => "Star"
    case Elite => "Elite"
  }

  /** The number of players in `players` whose development is `tag`. */
  function CountDevelopment(players: seq<Player>, tag: string): (n: nat)
    ensures n <= |players|
  {
    if players == [] then 0
    else CountDevelopment(players[..|players| - 1], tag)
         + (if players[|players| - 1].development == tag then 1 else 0)
  }

  /** The number of players whose development is one of the four counted traits. */
  function CountTracedTraits(players: seq<Player>): nat
  {
    if players == [] then 0
    else CountTracedTraits(players[..|players| - 1])
         + (if players[|players| - 1].development in {"Normal", "Impact", "Star", "Elite"} then 1 else 0)
  }

  /** One row of the development-trait summary. */
  datatype TraitCounts = TraitCounts(normal: nat, impact: nat, star: nat, elite: nat)

  function TraitSum(c: TraitCounts): nat
  {
    c.normal + c.impact + c.star + c.elite
  }

  /** A row of the trait summary for one position's list: every column counts
      some of the players. */
  function TraitCountsOf(players: seq<Player>): (row: TraitCounts)
    ensures row.normal <= |players| && row.impact <= |players| && row.star <= |players| && row.elite <= |players|
  {
    TraitCounts(CountDevelopment(players, TraitLabel(Normal)), CountDevelopment(players, TraitLabel(Impact)),
                CountDevelopment(players, TraitLabel(Star)), CountDevelopment(players, TraitLabel(Elite)))
  }

  /** `countPlayersByDevelopmentAndPosition(positionList)`: one row per listed
      position, computed from that position's current list. */
  function CountPlayersByDevelopmentAndPosition(r: Roster, positionList: seq<Position>): (summary: map<Position, TraitCounts>)
    ensures summary.Keys == set pos | pos in positionList
    ensures forall pos :: pos in summary ==> summary[pos] == TraitCountsOf(r[pos])
  {
    if positionList == [] then map[]
    else
      var last := positionList[|positionList| - 1];
      CountPlayersByDevelopmentAndPosition(r, positionList[..|positionList| - 1])[last := TraitCountsOf(r[last])]
  }

  /** `countTotalPlayers(positionList)`: the list lengths added up, left to right. */
  function CountTotalPlayers(r: Roster, positionList: seq<Position>): (total: nat)
    ensures positionList == [] ==> total == 0
    ensures positionList != [] ==> |r[positionList[|positionList| - 1]]| <= total
  {
    if positionList == [] then 0
    else CountTotalPlayers(r, positionList[..|positionList| - 1]) + |r[positionList[|positionList| - 1]]|
  }

  /** The team total: offense, defense and special teams added up, which is the
      total over all twenty positions. */
  function TotalTeamPlayers(r: Roster): (total: nat)
    ensures total == CountTotalPlayers(r, AllPositions)
  {
    TotalAdditive(r, OffensePositions, DefensePositions);
    TotalAdditive(r, OffensePositions + DefensePositions, SpecialTeamsPositions);
    CountTotalPlayers(r, OffensePositions) + CountTotalPlayers(r, DefensePositions)
    + CountTotalPlayers(r, SpecialTeamsPositions)
  }

  // ---------------------------------------------------------------------------
  // Counting identities of the class summary

  /** A year counts in at most one bucket, and in one exactly when it is one of
      the year options. */
  lemma YearInOneBucket(year: string)
    ensures (if InYearBucket(year, Recruit) then 1 else 0) + (if InYearBucket(year, Freshman) then 1 else 0)
          + (if InYearBucket(year, Sophomore) then 1 else 0) + (if InYearBucket(year, Junior) then 1 else 0)
          + (if InYearBucket(year, Senior) then 1 else 0)
         == (if year in YearOptions then 1 else 0)
  {
  }

  /** The five buckets together count exactly the players whose year is an option. */
  lemma {:induction false} BucketsCountValidYears(players: seq<Player>)
    ensures BucketSum(YearCountsOf(players)) == CountValidYears(players)
  {
    if players != [] {
      BucketsCountValidYears(players[..|players| - 1]);
      YearInOneBucket(players[|players| - 1].year);
    }
  }

  lemma {:induction false} ValidYearsAtMostLength(players: seq<Player>)
    ensures CountValidYears(players) <= |players|
    ensures CountValidYears(players) == |players| <==> forall i :: 0 <= i < |players| ==> players[i].year in YearOptions
  {
    if players != [] {
      var init := players[..|players| - 1];
      ValidYearsAtMostLength(init);
      assert forall i :: 0 <= i < |init| ==> init[i] == players[i];
    }
  }

  /** The buckets of a row partition the position's players exactly when every
      year is one of the options; otherwise they count fewer than TotalPlayers. */
  lemma YearBucketsPartition(players: seq<Player>)
    ensures BucketSum(YearCountsOf(players)) <= YearCountsOf(players).totalPlayers
    ensures BucketSum(YearCountsOf(players)) == YearCountsOf(players).totalPlayers
        <==> forall i :: 0 <= i < |players| ==> players[i].year in YearOptions
  {
    BucketsCountValidYears(players);
    ValidYearsAtMostLength(players);
  }

  /** A row of the class summary adds up to its TotalPlayers exactly when every
      year at that position is one of the options. */
  lemma YearSummaryAddsUp(r: Roster, positionList: seq<Position>, pos: Position)
    requires pos in positionList
    ensures pos in CountPlayersByYearAndPosition(r, positionList)
    ensures var row := CountPlayersByYearAndPosition(r, positionList)[pos];
      row.recruit + row.freshman + row.sophomore + row.junior + row.senior == row.totalPlayers
      <==> forall i :: 0 <= i < |r[pos]| ==> r[pos][i].year in YearOptions
  {
    YearBucketsPartition(r[pos]);
    assert CountPlayersByYearAndPosition(r, positionList)[pos] == YearCountsOf(r[pos]);
  }

  // ---------------------------------------------------------------------------
  // Counting identities of the development-trait summary

  /** The four columns together count the players whose development is one of
      the four counted traits. */
  lemma {:induction false} TraitColumnsCountTraced(players: seq<Player>)
    ensures TraitSum(TraitCountsOf(players)) == CountTracedTraits(players)
  {
    if players != [] {
      TraitColumnsCountTraced(players[..|players| - 1]);
    }
  }

  /** When every development is one of the options, the four columns count
      everybody except the "Gem" players. */
  lemma {:induction false} TracedAreAllButGems(players: seq<Player>)
    requires forall i :: 0 <= i < |players| ==> players[i].development in DevelopmentOptions
    ensures CountTracedTraits(players) + CountDevelopment(players, "Gem") == |players|
  {
    if players != [] {
      var init := players[..|players| - 1];
      assert forall i :: 0 <= i < |init| ==> init[i] == players[i];
      TracedAreAllButGems(init);
    }
  }

  lemma {:induction false} TracedAtMostLength(players: seq<Player>)
    ensures CountTracedTraits(players) <= |players|
  {
    if players != [] {
      TracedAtMostLength(players[..|players| - 1]);
    }
  }

  /** A row of the trait summary never counts more players than the position
      has, and when every trait at that position is an option it misses exactly
      the "Gem" players. */
  lemma TraitSummaryOmitsOnlyGems(r: Roster, positionList: seq<Position>, pos: Position)
    requires pos in positionList
    ensures pos in CountPlayersByDevelopmentAndPosition(r, positionList)
    ensures TraitSum(CountPlayersByDevelopmentAndPosition(r, positionList)[pos]) <= |r[pos]|
    ensures (forall i :: 0 <= i < |r[pos]| ==> r[pos][i].development in DevelopmentOptions) ==>
      TraitSum(CountPlayersByDevelopmentAndPosition(r, positionList)[pos]) == |r[pos]| - CountDevelopment(r[pos], "Gem")
  {
    TraitColumnsCountTraced(r[pos]);
    TracedAtMostLength(r[pos]);
    if forall i :: 0 <= i < |r[pos]| ==> r[pos][i].development in DevelopmentOptions {
      TracedAreAllButGems(r[pos]);
    }
  }

  // ---------------------------------------------------------------------------
  // Totals

  /** Totals add up over concatenated position lists. */
  lemma {:induction false} TotalAdditive(r: Roster, xs: seq<Position>, ys: seq<Position>)
    ensures CountTotalPlayers(r, xs + ys) == CountTotalPlayers(r, xs) + CountTotalPlayers(r, ys)
  {
    if ys == [] {
      assert xs + ys == xs;
    } else {
      var n := |ys| - 1;
      assert (xs + ys)[..|xs + ys| - 1] == xs + ys[..n];
      TotalAdditive(r, xs, ys[..n]);
    }
  }

  /** The total of a position list is the sum of the TotalPlayers column of its
      class-summary rows, counted once per occurrence in the list. */
  lemma {:induction false} TotalIsSumOfSummaryTotals(r: Roster, positionList: seq<Position>)
    ensures CountTotalPlayers(r, positionList) == SumOfTotals(CountPlayersByYearAndPosition(r, positionList), positionList)
  {
    if positionList != [] {
      var init := positionList[..|positionList| - 1];
      TotalIsSumOfSummaryTotals(r, init);
      SumOfTotalsIgnoresOtherRows(CountPlayersByYearAndPosition(r, init), CountPlayersByYearAndPosition(r, positionList), init);
    }
  }

  /** The TotalPlayers column added up over `positionList`. */
  function SumOfTotals(summary: map<Position, YearCounts>, positionList: seq<Position>): nat
    requires forall pos :: pos in positionList ==> pos in summary
  {
    if positionList == [] then 0
    else SumOfTotals(summary, positionList[..|positionList| - 1]) + summary[positionList[|positionList| - 1]].totalPlayers
  }

  lemma {:induction false} SumOfTotalsIgnoresOtherRows(a: map<Position, YearCounts>, b: map<Position, YearCounts>, positionList: seq<Position>)
    requires forall pos :: pos in positionList ==> pos in a && pos in b && a[pos].totalPlayers == b[pos].totalPlayers
    ensures SumOfTotals(a, positionList) == SumOfTotals(b, positionList)
  {
    if positionList != [] {
      SumOfTotalsIgnoresOtherRows(a, b, positionList[..|positionList| - 1]);
    }
  }

  // ---------------------------------------------------------------------------
  // The empty roster

  /** On the initial roster every row of both summaries is zero, and so is every total. */
  lemma InitialReportsAreZero(positionList: seq<Position>, pos: Position)
    requires pos in positionList
    ensures CountPlayersByYearAndPosition(InitialRoster, positionList)[pos] == YearCounts(0, 0, 0, 0, 0, 0)
    ensures CountPlayersByDevelopmentAndPosition(InitialRoster, positionList)[pos] == TraitCounts(0, 0, 0, 0)
    ensures CountTotalPlayers(InitialRoster, positionList) == 0
  {
    InitialRosterEmpty(pos);
    InitialTotalIsZero(positionList);
  }

  lemma {:induction false} InitialTotalIsZero(positionList: seq<Position>)
    ensures CountTotalPlayers(InitialRoster, positionList) == 0
  {
    if positionList != [] {
      InitialTotalIsZero(positionList[..|positionList| - 1]);
      InitialRosterEmpty(positionList[|positionList| - 1]);
    }
  }

  // ---------------------------------------------------------------------------
  // How the edits show in the reports

  /** Appending a player adds one to the bucket of its year and to the count of
      its development, and nothing to the others. */
  lemma CountsOfAppended(players: seq<Player>, p: Player)
    ensures forall bucket :: CountYear(players + [p], bucket)
                          == CountYear(players, bucket) + (if InYearBucket(p.year, bucket) then 1 else 0)
    ensures forall tag :: CountDevelopment(players + [p], tag)
                       == CountDevelopment(players, tag) + (if p.development == tag then 1 else 0)
  {
    assert (players + [p])[..|players|] == players;
  }

  /** Appending the default player adds one freshman and one "Normal" player. */
  lemma DefaultPlayerCounts(players: seq<Player>)
    ensures YearCountsOf(players + [DefaultPlayer])
         == YearCountsOf(players).(freshman := YearCountsOf(players).freshman + 1,
                                   totalPlayers := YearCountsOf(players).totalPlayers + 1)
    ensures TraitCountsOf(players + [DefaultPlayer])
         == TraitCountsOf(players).(normal := TraitCountsOf(players).normal + 1)
  {
    var added := players + [DefaultPlayer];
    assert added[..|added| - 1] == players;
  }

  /** Adding a player at `pos` leaves the rows of every other position as they were. */
  lemma AddLeavesOtherRows(r: Roster, pos: Position, positionList: seq<Position>, other: Position)
    requires other in positionList && other != pos
    ensures CountPlayersByYearAndPosition(WithPlayerAdded(r, pos), positionList)[other]
         == CountPlayersByYearAndPosition(r, positionList)[other]
    ensures CountPlayersByDevelopmentAndPosition(WithPlayerAdded(r, pos), positionList)[other]
         == CountPlayersByDevelopmentAndPosition(r, positionList)[other]
  {
    assert WithPlayerAdded(r, pos)[other] == r[other];
  }

  /** After an add at `pos`, that position's rows are the rows of its old list
      with the default player appended; before it, they are the rows of the old list. */
  lemma AddedRows(r: Roster, pos: Position, positionList: seq<Position>)
    requires pos in positionList
    ensures CountPlayersByYearAndPosition(WithPlayerAdded(r, pos), positionList)[pos] == YearCountsOf(r[pos] + [DefaultPlayer])
    ensures CountPlayersByDevelopmentAndPosition(WithPlayerAdded(r, pos), positionList)[pos] == TraitCountsOf(r[pos] + [DefaultPlayer])
    ensures CountPlayersByYearAndPosition(r, positionList)[pos] == YearCountsOf(r[pos])
    ensures CountPlayersByDevelopmentAndPosition(r, positionList)[pos] == TraitCountsOf(r[pos])
  {
    assert WithPlayerAdded(r, pos)[pos] == r[pos] + [DefaultPlayer];
  }

  /** Adding a player at `pos` adds one freshman and one to the total of that
      position's row of the class summary. */
  lemma AddShowsInYearSummary(r: Roster, pos: Position, positionList: seq<Position>)
    requires pos in positionList
    ensures var before := CountPlayersByYearAndPosition(r, positionList);
            var after := CountPlayersByYearAndPosition(WithPlayerAdded(r, pos), positionList);
            after[pos] == before[pos].(freshman := before[pos].freshman + 1, totalPlayers := before[pos].totalPlayers + 1)
  {
    AddedRows(r, pos, positionList);
    DefaultPlayerCounts(r[pos]);
  }

  /** Adding a player at `pos` adds one "Normal" player to that position's row
      of the trait summary. */
  lemma AddShowsInTraitSummary(r: Roster, pos: Position, positionList: seq<Position>)
    requires pos in positionList
    ensures var before := CountPlayersByDevelopmentAndPosition(r, positionList);
            var after := CountPlayersByDevelopmentAndPosition(WithPlayerAdded(r, pos), positionList);
            after[pos] == before[pos].(normal := before[pos].normal + 1)
  {
    AddedRows(r, pos, positionList);
    DefaultPlayerCounts(r[pos]);
  }

  /** Replacing one position's list changes the total over a list of distinct
      positions by the change in that list's length, when the position is listed,
      and not at all otherwise. */
  lemma {:induction false} TotalAfterReplace(r: Roster, pos: Position, s: seq<Player>, positionList: seq<Position>)
    requires forall i, j :: 0 <= i < j < |positionList| ==> positionList[i] != positionList[j]
    ensures pos in positionList ==>
      CountTotalPlayers(r[pos := s], positionList) + |r[pos]| == CountTotalPlayers(r, positionList) + |s|
    ensures pos !in positionList ==> CountTotalPlayers(r[pos := s], positionList) == CountTotalPlayers(r, positionList)
  {
    if positionList != [] {
      var r' := r[pos := s];
      var init, last := positionList[..|positionList| - 1], positionList[|positionList| - 1];
      assert forall i :: 0 <= i < |init| ==> init[i] == positionList[i];
      TotalAfterReplace(r, pos, s, init);
      assert pos in positionList <==> pos in init || last == pos;
      assert last == pos ==> pos !in init;
      assert last != pos ==> r'[last] == r[last];
    }
  }

  /** Adding a player raises the team total by one, removing an existing one
      lowers it by one, and editing a field leaves it alone. */
  lemma EditsShowInTeamTotal(r: Roster, pos: Position, index: int, key: Field, value: string)
    ensures TotalTeamPlayers(WithPlayerAdded(r, pos)) == TotalTeamPlayers(r) + 1
    ensures 0 <= index < |r[pos]| ==> TotalTeamPlayers(WithPlayerRemoved(r, pos, index)) == TotalTeamPlayers(r) - 1
    ensures TotalTeamPlayers(WithPlayerChanged(r, pos, index, key, value)) == TotalTeamPlayers(r)
  {
    AllPositionsDistinct();
    GroupsPartitionPositions(pos);
    var added := WithPlayerAdded(r, pos);
    TotalAfterReplace(r, pos, added[pos], AllPositions);
    var removed := WithPlayerRemoved(r, pos, index);
    TotalAfterReplace(r, pos, removed[pos], AllPositions);
    var changed := WithPlayerChanged(r, pos, index, key, value);
    TotalAfterReplace(r, pos, changed[pos], AllPositions);
  }
}
