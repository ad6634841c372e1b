/** Two sessions with the tracker, followed edit by edit from the empty roster. */
module Scenarios {
  import opened Roster
  import opened Store
  import opened Summary

  /** Adding to a position whose list is `s` leaves `s` followed by the default player there. */
  lemma AddTo(r: Roster, pos: Position, s: seq<Player>)
    ensures WithPlayerAdded(r[pos := s], pos) == r[pos := s + [DefaultPlayer]]
  {
    var r' := r[pos := s];
    assert r'[pos := s + [DefaultPlayer]] == r[pos := s + [DefaultPlayer]];
  }

  /** Editing a position whose list is `s` leaves the edited list there. */
  lemma ChangeIn(r: Roster, pos: Position, s: seq<Player>, index: int, key: Field, value: string)
    ensures WithPlayerChanged(r[pos := s], pos, index, key, value) == r[pos := UpdatedAt(s, index, key, value)]
  {
    var r' := r[pos := s];
    assert r'[pos := UpdatedAt(s, index, key, value)] == r[pos := UpdatedAt(s, index, key, value)];
  }

  /** A quarterback is added to an empty quarterback list and made a redshirt
      freshman with the "Star" trait. */
  lemma QuarterbackEdits(r: Roster)
    requires r[QB] == []
    ensures WithPlayerChanged(WithPlayerChanged(WithPlayerAdded(r, QB), QB, 0, Year, "FR(RS)"), QB, 0, Development, "Star")
         == r[QB := [Player("", "FR(RS)", "Star")]]
  {
    var aged := Player("", "FR(RS)", "Normal");
    assert WithPlayerAdded(r, QB) == r[QB := [DefaultPlayer]] by {
      assert r[QB := []] == r;
      AddTo(r, QB, []);
      assert [] + [DefaultPlayer] == [DefaultPlayer];
    }
    assert WithPlayerChanged(r[QB := [DefaultPlayer]], QB, 0, Year, "FR(RS)") == r[QB := [aged]] by {
      ChangeIn(r, QB, [DefaultPlayer], 0, Year, "FR(RS)");
      assert UpdatedAt([DefaultPlayer], 0, Year, "FR(RS)") == [aged];
    }
    ChangeIn(r, QB, [aged], 0, Development, "Star");
    assert UpdatedAt([aged], 0, Development, "Star") == [Player("", "FR(RS)", "Star")];
  }

  /** On the empty roster, after those edits the quarterback rows of both
      summaries show exactly that player, and the offense total is one. */
  lemma RedshirtStarQuarterback()
    ensures var r := WithPlayerChanged(WithPlayerChanged(WithPlayerAdded(InitialRoster, QB), QB, 0, Year, "FR(RS)"),
                                       QB, 0, Development, "Star");
      && CountPlayersByYearAndPosition(r, OffensePositions)[QB] == YearCounts(0, 1, 0, 0, 0, 1)
      && CountPlayersByDevelopmentAndPosition(r, OffensePositions)[QB] == TraitCounts(0, 0, 1, 0)
      && CountTotalPlayers(r, OffensePositions) == 1
  {
    InitialRosterEmpty(QB);
    QuarterbackEdits(InitialRoster);
    var star := Player("", "FR(RS)", "Star");
    OnePlayerRows(star);
    OneQuarterbackTotal(star);
  }

  /** With one quarterback on an otherwise empty roster, the offense has one player. */
  lemma OneQuarterbackTotal(p: Player)
    ensures CountTotalPlayers(InitialRoster[QB := [p]], OffensePositions) == 1
  {
    InitialRosterEmpty(QB);
    InitialTotalIsZero(OffensePositions);
    TotalAfterReplace(InitialRoster, QB, [p], OffensePositions);
  }

  /** A lone redshirt freshman with the "Star" trait makes one Freshman and one
      "Star", whatever the name. */
  lemma OnePlayerRows(p: Player)
    requires p.year == "FR(RS)" && p.development == "Star"
    ensures YearCountsOf([p]) == YearCounts(0, 1, 0, 0, 0, 1)
    ensures TraitCountsOf([p]) == TraitCounts(0, 0, 1, 0)
  {
    CountsOfAppended([], p);
    assert [] + [p] == [p];
    assert !InYearBucket(p.year, Recruit) && InYearBucket(p.year, Freshman) && !InYearBucket(p.year, Sophomore)
        && !InYearBucket(p.year, Junior) && !InYearBucket(p.year, Senior);
    assert p.development != "Normal" && p.development != "Impact" && p.development != "Elite";
  }

  /** Three receivers are added to an empty receiver list. */
  lemma ThreeReceiversAdded(r: Roster)
    requires r[WR] == []
    ensures WithPlayerAdded(WithPlayerAdded(WithPlayerAdded(r, WR), WR), WR)
         == r[WR := [DefaultPlayer, DefaultPlayer, DefaultPlayer]]
  {
    var d := DefaultPlayer;
    assert WithPlayerAdded(r, WR) == r[WR := [d]] by {
      assert r[WR := []] == r;
      AddTo(r, WR, []);
      assert [] + [d] == [d];
    }
    assert WithPlayerAdded(r[WR := [d]], WR) == r[WR := [d, d]] by {
      AddTo(r, WR, [d]);
      assert [d] + [d] == [d, d];
    }
    AddTo(r, WR, [d, d]);
    assert [d, d] + [d] == [d, d, d];
  }

  /** The three receivers are named `a`, `b` and `c`. */
  lemma ThreeReceiversNamed(r: Roster, a: string, b: string, c: string)
    ensures var d := DefaultPlayer;
      WithPlayerChanged(WithPlayerChanged(WithPlayerChanged(r[WR := [d, d, d]], WR, 0, Name, a), WR, 1, Name, b), WR, 2, Name, c)
      == r[WR := [d.(name := a), d.(name := b), d.(name := c)]]
  {
    var d := DefaultPlayer;
    assert WithPlayerChanged(r[WR := [d, d, d]], WR, 0, Name, a) == r[WR := [d.(name := a), d, d]] by {
      ChangeIn(r, WR, [d, d, d], 0, Name, a);
      assert UpdatedAt([d, d, d], 0, Name, a) == [d.(name := a), d, d];
    }
    assert WithPlayerChanged(r[WR := [d.(name := a), d, d]], WR, 1, Name, b)
        == r[WR := [d.(name := a), d.(name := b), d]] by {
      ChangeIn(r, WR, [d.(name := a), d, d], 1, Name, b);
      assert UpdatedAt([d.(name := a), d, d], 1, Name, b) == [d.(name := a), d.(name := b), d];
    }
    ChangeIn(r, WR, [d.(name := a), d.(name := b), d], 2, Name, c);
    assert UpdatedAt([d.(name := a), d.(name := b), d], 2, Name, c) == [d.(name := a), d.(name := b), d.(name := c)];
  }

  /** Starting with no receivers (as on the initial roster), three receivers are
      added and named, and the middle one is removed: the first and third
      remain, in their order. */
  lemma RemoveMiddleReceiver(r: Roster, a: string, b: string, c: string)
    requires r[WR] == []
    ensures var d := DefaultPlayer;
      var named := WithPlayerChanged(WithPlayerChanged(WithPlayerChanged(
          WithPlayerAdded(WithPlayerAdded(WithPlayerAdded(r, WR), WR), WR), WR, 0, Name, a), WR, 1, Name, b), WR, 2, Name, c);
      WithPlayerRemoved(named, WR, 1)[WR] == [d.(name := a), d.(name := c)]
  {
    var d := DefaultPlayer;
    var named := [d.(name := a), d.(name := b), d.(name := c)];
    ThreeReceiversAdded(r);
    ThreeReceiversNamed(r, a, b, c);
    assert WithPlayerRemoved(r[WR := named], WR, 1)[WR] == named[..1] + named[2..];
    assert named[..1] + named[2..] == [d.(name := a), d.(name := c)];
  }
}
