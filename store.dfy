/** The roster store: the three edits the tracker makes to its roster. Each edit
    builds a new list for one position and replaces the whole roster with a copy
    that differs from the old one at that position only. */
module Store {
  import opened Roster

  /** The entries of `s` whose index differs from `index`, in order: what
      filtering a list with the test `i !== index` keeps. */
  function WithoutIndex<T>(s: seq<T>, index: int): (kept: seq<T>)
    ensures |kept| == if 0 <= index < |s| then |s| - 1 else |s|
    ensures forall x :: x in kept ==> x in s
    decreases |s|
  {
    if s == [] then []
    else WithoutIndex(s[..|s| - 1], index) + (if |s| - 1 != index then [s[|s| - 1]] else [])
  }

  /** Filtering out an index inside the list removes exactly that entry;
      filtering out any other index removes nothing. */
  lemma {:induction false} WithoutIndexDropsOne<T>(s: seq<T>, index: int)
    ensures 0 <= index < |s| ==> WithoutIndex(s, index) == s[..index] + s[index + 1..]
    ensures !(0 <= index < |s|) ==> WithoutIndex(s, index) == s
  {
    if s != [] {
      var n := |s| - 1;
      WithoutIndexDropsOne(s[..n], index);
      if 0 <= index < n {
        calc {
          WithoutIndex(s, index);
          WithoutIndex(s[..n], index) + [s[n]];
          s[..n][..index] + s[..n][index + 1..] + [s[n]];
          { assert s[..n][..index] == s[..index]; assert s[..n][index + 1..] + [s[n]] == s[index + 1..]; }
          s[..index] + s[index + 1..];
        }
      } else if index == n {
        assert s[index + 1..] == [];
      } else {
        assert s[..n] + [s[n]] == s;
      }
    }
  }

  /** Each entry of `s`, except that the one at `index` gets `value` in field
      `key`: what mapping a list with `i === index ? {...player, [key]: value} : player`
      yields. */
  function UpdatedAt(s: seq<Player>, index: int, key: Field, value: string): (updated: seq<Player>)
    ensures |updated| == |s|
    ensures 0 <= index < |s| ==> Get(updated[index], key) == value
    ensures 0 <= index < |s| ==> forall other :: other != key ==> Get(updated[index], other) == Get(s[index], other)
    ensures forall i :: 0 <= i < |s| && i != index ==> updated[i] == s[i]
  {
    seq(|s|, i requires 0 <= i < |s| => if i == index then Set(s[i], key, value) else s[i])
  }

  /** `addPlayer(position)`: the position's list gains the default player at its end. */
  function WithPlayerAdded(r: Roster, pos: Position): (r': Roster)
    ensures |r'[pos]| == |r[pos]| + 1
    ensures r'[pos][..|r[pos]|] == r[pos]
    ensures r'[pos][|r[pos]|] == DefaultPlayer
    ensures r' == r[pos := r'[pos]]
  {
    r[pos := r[pos] + [DefaultPlayer]]
  }

  /** `removePlayer(position, index)`: the entry at `index` leaves the list, the
      entries before it keep their index and the ones after it move down by one.
      An index outside the list leaves the roster as it was. */
  function WithPlayerRemoved(r: Roster, pos: Position, index: int): (r': Roster)
    ensures 0 <= index < |r[pos]| ==>
      && |r'[pos]| == |r[pos]| - 1
      && (forall i :: 0 <= i < index ==> r'[pos][i] == r[pos][i])
      && (forall i :: index <= i < |r'[pos]| ==> r'[pos][i] == r[pos][i + 1])
    ensures !(0 <= index < |r[pos]|) ==> r' == r
    ensures r' == r[pos := r'[pos]]
  {
    WithoutIndexDropsOne(r[pos], index);
    r[pos := WithoutIndex(r[pos], index)]
  }

  /** `handlePlayerChange(position, index, key, value)`: field `key` of the entry
      at `index` becomes `value`; its other fields, the other entries, the
      length and the other positions stay as they were. An index outside the
      list leaves the roster as it was. */
  function WithPlayerChanged(r: Roster, pos: Position, index: int, key: Field, value: string): (r': Roster)
    ensures |r'[pos]| == |r[pos]|
    ensures 0 <= index < |r[pos]| ==> Get(r'[pos][index], key) == value
    ensures 0 <= index < |r[pos]| ==>
      forall other :: other != key ==> Get(r'[pos][index], other) == Get(r[pos][index], other)
    ensures forall i :: 0 <= i < |r[pos]| && i != index ==> r'[pos][i] == r[pos][i]
    ensures !(0 <= index < |r[pos]|) ==> r' == r
    ensures r' == r[pos := r'[pos]]
  {
    var updated := UpdatedAt(r[pos], index, key, value);
    assert !(0 <= index < |r[pos]|) ==> updated == r[pos];
    r[pos := updated]
  }

  /** Removing the player just added gives back the roster as it was. */
  lemma {:induction false} RemoveUndoesAdd(r: Roster, pos: Position)
    ensures WithPlayerRemoved(WithPlayerAdded(r, pos), pos, |r[pos]|) == r
  {
    var n := |r[pos]|;
    var grown := r[pos] + [DefaultPlayer];
    assert WithPlayerAdded(r, pos) == r[pos := grown];
    WithoutIndexDropsOne(grown, n);
    assert grown[..n] == r[pos] && grown[n + 1..] == [];
    assert WithoutIndex(grown, n) == r[pos];
    assert r[pos := grown][pos := r[pos]] == r;
  }

  /** Applying the same edit twice is the same as applying it once. */
  lemma ChangeIdempotent(r: Roster, pos: Position, index: int, key: Field, value: string)
    ensures WithPlayerChanged(WithPlayerChanged(r, pos, index, key, value), pos, index, key, value)
         == WithPlayerChanged(r, pos, index, key, value)
  {
    var once := WithPlayerChanged(r, pos, index, key, value);
    var twice := WithPlayerChanged(once, pos, index, key, value);
    if 0 <= index < |r[pos]| {
      PlayerExtensional(twice[pos][index], once[pos][index]);
      assert twice[pos] == once[pos];
    }
  }

  /** Writing back the value a field held before an edit undoes the edit. */
  lemma ChangeUndoneByOldValue(r: Roster, pos: Position, index: int, key: Field, value: string)
    requires 0 <= index < |r[pos]|
    ensures WithPlayerChanged(WithPlayerChanged(r, pos, index, key, value), pos, index, key, Get(r[pos][index], key))
         == r
  {
    var s := r[pos];
    var once := UpdatedAt(s, index, key, value);
    var twice := UpdatedAt(once, index, key, Get(s[index], key));
    SetLaws(s[index], key, value, Get(s[index], key));
    assert twice == s;
    assert WithPlayerChanged(r, pos, index, key, value) == r[pos := once];
    assert r[pos := once][pos := twice] == r;
  }

  /** Edits of two different fields of the same player may be made in either order. */
  lemma ChangesOfDistinctFieldsCommute(r: Roster, pos: Position, index: int,
                                       key1: Field, value1: string, key2: Field, value2: string)
    requires key1 != key2
    ensures WithPlayerChanged(WithPlayerChanged(r, pos, index, key1, value1), pos, index, key2, value2)
         == WithPlayerChanged(WithPlayerChanged(r, pos, index, key2, value2), pos, index, key1, value1)
  {
    var a := WithPlayerChanged(WithPlayerChanged(r, pos, index, key1, value1), pos, index, key2, value2);
    var b := WithPlayerChanged(WithPlayerChanged(r, pos, index, key2, value2), pos, index, key1, value1);
    if 0 <= index < |r[pos]| {
      PlayerExtensional(a[pos][index], b[pos][index]);
      assert a[pos] == b[pos];
    }
  }

  /** The default player carries tags from the option lists, so adding keeps a
      well-tagged roster well tagged; so does removing, and so does an edit that
      writes the name, or a year or trait that the form offers. */
  lemma AddKeepsWellTagged(r: Roster, pos: Position)
    requires WellTagged(r)
    ensures WellTagged(WithPlayerAdded(r, pos))
  {
  }

  lemma RemoveKeepsWellTagged(r: Roster, pos: Position, index: int)
    requires WellTagged(r)
    ensures WellTagged(WithPlayerRemoved(r, pos, index))
  {
    var r' := WithPlayerRemoved(r, pos, index);
    forall q, i | 0 <= i < |r'[q]| ensures HasValidTags(r'[q][i]) {
      if q == pos && 0 <= index < |r[pos]| && index <= i {
        assert r'[q][i] == r[q][i + 1];
      }
    }
  }

  lemma ChangeKeepsWellTagged(r: Roster, pos: Position, index: int, key: Field, value: string)
    requires WellTagged(r)
    requires key == Year ==> value in YearOptions
    requires key == Development ==> value in DevelopmentOptions
    ensures WellTagged(WithPlayerChanged(r, pos, index, key, value))
  {
    var r' := WithPlayerChanged(r, pos, index, key, value);
    forall q, i | 0 <= i < |r'[q]| ensures HasValidTags(r'[q][i]) {
      if q == pos && i == index {
        assert Get(r'[q][i], Year) in YearOptions;
        assert Get(r'[q][i], Development) in DevelopmentOptions;
      }
    }
  }

  /** The tracker's roster state, replaced as a whole on every edit. */
  class RosterStore {
    var playersByPosition: Roster

    /** Every position starts with an empty list. */
    constructor ()
      ensures playersByPosition == InitialRoster
    {
      playersByPosition := InitialRoster;
    }

    method AddPlayer(position: Position)
      modifies this
      ensures playersByPosition == WithPlayerAdded(old(playersByPosition), position)
    {
      playersByPosition := playersByPosition[position := playersByPosition[position] + [DefaultPlayer]];
    }

    method RemovePlayer(position: Position, index: int)
      modifies this
      ensures playersByPosition == WithPlayerRemoved(old(playersByPosition), position, index)
    {
      var updatedPlayers := WithoutIndex(playersByPosition[position], index);
      playersByPosition := playersByPosition[position := updatedPlayers];
    }

    method HandlePlayerChange(position: Position, index: int, key: Field, value: string)
      modifies this
      ensures playersByPosition == WithPlayerChanged(old(playersByPosition), position, index, key, value)
    {
      var updatedPlayers := UpdatedAt(playersByPosition[position], index, key, value);
      playersByPosition := playersByPosition[position := updatedPlayers];
    }
  }
}
