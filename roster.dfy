/** The data model of the dynasty roster tracker: the twenty roster positions in
    their three squad groups, the option lists offered for a player's class year
    and development trait, the player record, and the roster itself. */
module Roster {

  /** The twenty roster slots. */
  datatype Position =
    | QB | HB | WR | TE | LT | LG | C | RG | RT
    | LE | DT | RE | LOLB | MLB | ROLB | CB | FS | SS
    | K | P

  /** The label the tracker uses as the key of a position. */
  function Label(pos: Position): string
  {
    match pos
    case QB => "QB"    case HB => "HB"    case WR => "WR"
    case TE => "TE"    case LT => "LT"    case LG => "LG"
    case C => "C"      case RG => "RG"    case RT => "RT"
    case LE => "LE"    case DT => "DT"    case RE => "RE"
    case LOLB => "LOLB" case MLB => "MLB" case ROLB => "ROLB"
    case CB => "CB"    case FS => "FS"    case SS => "SS"
    case K => "K"      case P => "P"
  }

  /** Distinct positions have distinct labels, so keying the roster by Position
      is the same as keying it by label. */
  lemma LabelInjective(a: Position, b: Position)
    ensures Label(a) == Label(b) <==> a == b
  {
  }

  const OffensePositions: seq<Position> := [QB, HB, WR, TE, LT, LG, C, RG, RT]
  const DefensePositions: seq<Position> := [LE, DT, RE, LOLB, MLB, ROLB, CB, FS, SS]
  const SpecialTeamsPositions: seq<Position> := [K, P]

  /** Offense, then defense, then special teams: the order the tracker lists them in. */
  const AllPositions: seq<Position> := OffensePositions + DefensePositions + SpecialTeamsPositions

  const YearOptions: seq<string> := ["RC", "FR", "SO", "JR", "SR", "FR(RS)", "SO(RS)", "JR(RS)", "SR(RS)"]
  const DevelopmentOptions: seq<string> := ["Gem", "Normal", "Impact", "Star", "Elite"]

  /** The three squad groups are pairwise disjoint, each lists its positions
      once, and together they hold every position exactly once. */
  lemma GroupsPartitionPositions(pos: Position)
    ensures pos in AllPositions
    ensures pos in OffensePositions || pos in DefensePositions || pos in SpecialTeamsPositions
    ensures !(pos in OffensePositions && pos in DefensePositions)
    ensures !(pos in OffensePositions && pos in SpecialTeamsPositions)
    ensures !(pos in DefensePositions && pos in SpecialTeamsPositions)
  {
  }

  lemma AllPositionsDistinct()
    ensures |AllPositions| == 20
    ensures forall i, j :: 0 <= i < j < |AllPositions| ==> AllPositions[i] != AllPositions[j]
  {
  }

  /** A player record. The tracker keeps the class year and the development
      trait as free strings; its form only offers the option lists. */
  datatype Player = Player(name: string, year: string, development: string)

  /** The player that "add player" appends. */
  const DefaultPlayer: Player := Player("", "FR", "Normal")

  /** The three keys the form passes when it edits a player. */
  datatype Field = Name | Year | Development

  function Get(p: Player, key: Field): string
  {
    match key
    case Name => p.name
    case Year => p.year
    case Development => p.development
  }

  /** The record with field `key` replaced by `value`. */
  function Set(p: Player, key: Field, value: string): (q: Player)
    ensures Get(q, key) == value
    ensures forall other :: other != key ==> Get(q, other) == Get(p, other)
  {
    match key
    case Name => p.(name := value)
    case Year => p.(year := value)
    case Development => p.(development := value)
  }

  /** A record is determined by its three fields. */
  lemma {:induction false} PlayerExtensional(p: Player, q: Player)
    requires forall key :: Get(p, key) == Get(q, key)
    ensures p == q
  {
    assert Get(p, Name) == Get(q, Name);
    assert Get(p, Year) == Get(q, Year);
    assert Get(p, Development) == Get(q, Development);
  }

  /** Writing back what a field already holds changes nothing, and a second
      write to the same field overrides the first. */
  lemma SetLaws(p: Player, key: Field, v: string, w: string)
    ensures Set(p, key, Get(p, key)) == p
    ensures Set(Set(p, key, v), key, w) == Set(p, key, w)
  {
  }

  predicate HasValidTags(p: Player)
  {
    p.year in YearOptions && p.development in DevelopmentOptions
  }

  /** The roster: every position has its own ordered list of players. */
  type Roster = r: map<Position, seq<Player>> | forall pos :: pos in r
    witness (InitialListsCoverAll(); InitialLists)

  /** The tracker's initial state: an empty list for each of the twenty positions. */
  const InitialLists: map<Position, seq<Player>> := map[
    QB := [], HB := [], WR := [], TE := [], LT := [], LG := [], C := [], RG := [], RT := [],
    LE := [], DT := [], RE := [], LOLB := [], MLB := [], ROLB := [], CB := [], FS := [], SS := [],
    K := [], P := []]

  const InitialRoster: Roster := (InitialListsCoverAll(); InitialLists)

  /** The initial roster covers every position and holds nobody. */
  lemma InitialRosterEmpty(pos: Position)
    ensures pos in InitialRoster && InitialRoster[pos] == []
  {
  }

  lemma InitialListsCoverAll()
    ensures forall pos :: pos in InitialLists
  {
    forall pos ensures pos in InitialLists {
      assert pos.QB? || pos.HB? || pos.WR? || pos.TE? || pos.LT? || pos.LG? || pos.C? || pos.RG? || pos.RT?
          || pos.LE? || pos.DT? || pos.RE? || pos.LOLB? || pos.MLB? || pos.ROLB? || pos.CB? || pos.FS? || pos.SS?
          || pos.K? || pos.P?;
    }
  }

  /** Every player on the roster carries a year and a trait from the option lists. */
  ghost predicate WellTagged(r: Roster)
  {
    forall pos, i :: 0 <= i < |r[pos]| ==> HasValidTags(r[pos][i])
  }
}
