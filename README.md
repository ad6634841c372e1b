# Dynasty roster tracker — roster store and reports

A model of the logic in the `App` component of the college-football dynasty
roster tracker (`src/App.js`). The tracker keeps one ordered list of players
for each of twenty roster positions. A player is a record of a name, a class
year and a development trait. The user edits the roster with three handlers:
add a default player to a position, remove the player at an index, and change
one field of the player at an index. From the current roster the tracker
computes three reports for each squad group (offense, defense, special teams):

- a class summary: per position, the players by class year, with redshirt
  years counted with their base year, plus the position's total;
- a development summary: per position, the "Normal", "Impact", "Star" and
  "Elite" players ("Gem" has no column);
- player totals per group and for the whole team.

The model has four modules:

- `Roster` (`roster.dfy`): positions, squad groups, option lists, the player
  record, field keys and the initial roster.
- `Store` (`store.dfy`): the three handlers. Each is a pure function from
  roster to roster that carries its contract. The class `RosterStore` holds the
  `playersByPosition` state, and its methods replace that state with the
  function's result, as the handlers do through the state setter.
- `Summary` (`summary.dfy`): the three `reduce` folds over a position list,
  each a recursive function over the roster snapshot. Lemmas state the counting
  identities and how each edit shows in the reports.
- `Scenarios` (`scenarios.dfy`): two edit sessions followed step by step.

The code filters with `i !== index` and maps with `i === index`, so an
out-of-range index, a negative one included, leaves the list unchanged. The
model does the same. The class year and trait are kept as
free strings, because the handler stores whatever value it gets. Facts that
need the option lists take "every tag is an option" as a hypothesis, on the
one position's list they are about, or on the whole roster (`WellTagged`) for
facts about the whole roster. The roster is keyed by a `Position` datatype
rather than by the label strings; `LabelInjective` shows the two keyings agree.

## Model

| member | source | states |
|---|---|---|
| Roster.GroupsPartitionPositions | src/App.js:6-8 | every position is in exactly one of offense, defense and special teams, and in the full list |
| Roster.AllPositionsDistinct | src/App.js:6-8 | the full list has twenty distinct positions |
| Roster.LabelInjective | src/App.js:6-8 | two positions have the same label exactly when they are the same position |
| Roster.Set | src/App.js:47 | `{...player, [key]: value}` gives `key` the new value and keeps the other two fields |
| Roster.SetLaws | src/App.js:47 | writing back a field's own value changes nothing; a second write to the same field overrides the first |
| Roster.InitialRosterEmpty | src/App.js:15-19 | the initial roster has every position as a key, and each list is empty |
| Store.WithoutIndex | src/App.js:37 | filtering with `i !== index` keeps one entry fewer when the index is inside the list and all of them otherwise, and keeps only entries of the list |
| Store.UpdatedAt | src/App.js:46-48 | the mapped list has the same length; the entry at the index gets the value in field `key` and keeps its other fields; every other entry is unchanged |
| Store.WithoutIndexDropsOne | src/App.js:37 | filtering with `i !== index` drops exactly the entry at an index inside the list and nothing for any other index |
| Store.WithPlayerAdded | src/App.js:25-33 | the position's list grows by one; earlier entries stay as they were; the new last entry is `{name: '', year: 'FR', development: 'Normal'}`; other positions stay as they were |
| Store.WithPlayerRemoved | src/App.js:36-42 | for an index inside the list: length drops by one, earlier entries keep their index, later ones move down by one; an out-of-range index changes nothing; other positions stay as they were |
| Store.WithPlayerChanged | src/App.js:45-53 | the length stays; the entry at the index gets the value in field `key` and keeps its other fields; every other entry and position stays as it was; an out-of-range index changes nothing |
| Store.RemoveUndoesAdd | src/App.js:25-42 | removing the last entry right after an add gives back the roster as it was |
| Store.ChangeIdempotent | src/App.js:45-53 | making the same edit twice gives the same roster as making it once |
| Store.ChangeUndoneByOldValue | src/App.js:45-53 | writing back the field's previous value undoes an edit |
| Store.ChangesOfDistinctFieldsCommute | src/App.js:45-53 | edits to two different fields of one player can be made in either order |
| Store.AddKeepsWellTagged | src/App.js:11-12 | the default player's year and trait are in the option lists, so an add keeps every tag an option |
| Store.RemoveKeepsWellTagged | src/App.js:36-42 | a removal keeps every tag an option |
| Store.ChangeKeepsWellTagged | src/App.js:45-53 | an edit that writes a name, or a year or trait from the option lists, keeps every tag an option |
| Store.RosterStore.constructor | src/App.js:15-19 | the state starts as the initial roster |
| Store.RosterStore.AddPlayer | src/App.js:25-33 | the new state is `WithPlayerAdded` of the old one |
| Store.RosterStore.RemovePlayer | src/App.js:36-42 | the new state is `WithPlayerRemoved` of the old one |
| Store.RosterStore.HandlePlayerChange | src/App.js:45-53 | the new state is `WithPlayerChanged` of the old one |
| Summary.YearCountsOf | src/App.js:58-65 | a class-summary row: TotalPlayers is the list length, and no bucket counts more players than the list holds |
| Summary.CountPlayersByYearAndPosition | src/App.js:56-68 | the summary's keys are exactly the listed positions; each row is computed from that position's current list |
| Summary.YearInOneBucket | src/App.js:59-63 | a year falls in at most one of the five buckets, and in one exactly when it is a year option |
| Summary.BucketsCountValidYears | src/App.js:59-63 | the five bucket counts add up to the number of players whose year is an option |
| Summary.ValidYearsAtMostLength | src/App.js:11 | that number is at most the list length, and equals it exactly when every year is an option |
| Summary.YearBucketsPartition | src/App.js:56-68 | Recruit + Freshman + Sophomore + Junior + Senior is at most TotalPlayers, and equals it exactly when every year is an option |
| Summary.YearSummaryAddsUp | src/App.js:56-68 | a listed position's row has buckets adding up to its TotalPlayers exactly when every year at that position is an option |
| Summary.TraitCountsOf | src/App.js:78-83 | a trait-summary row: no column counts more players than the list holds |
| Summary.CountPlayersByDevelopmentAndPosition | src/App.js:76-86 | the summary's keys are exactly the listed positions; each row is computed from that position's current list |
| Summary.TraitColumnsCountTraced | src/App.js:79-82 | Normal + Impact + Star + Elite is the number of players whose trait is one of those four |
| Summary.TracedAreAllButGems | src/App.js:12 | when every trait is an option, the players with one of the four counted traits are all the players except the "Gem" ones |
| Summary.TracedAtMostLength | src/App.js:79-82 | the four counted traits never cover more players than the list holds |
| Summary.TraitSummaryOmitsOnlyGems | src/App.js:76-86 | a row's four columns add up to at most the position's list length; when every trait at that position is an option, they add up to the length minus the "Gem" players |
| Summary.TotalAdditive | src/App.js:71-73 | the total over two concatenated position lists is the sum of their totals |
| Summary.CountTotalPlayers | src/App.js:71-73 | the total over no positions is zero, and it is at least the length of the last listed position's list |
| Summary.TotalTeamPlayers | src/App.js:99-104 | offense + defense + special-teams totals equal the total over all twenty positions |
| Summary.TotalIsSumOfSummaryTotals | src/App.js:56-73 | the total over a position list equals the sum of the TotalPlayers column of its class-summary rows, counted once per listed occurrence |
| Summary.InitialReportsAreZero | src/App.js:15-19 | on the initial roster every class-summary row and trait-summary row is all zeros, and every total is zero |
| Summary.InitialTotalIsZero | src/App.js:71-73 | on the initial roster the total over any position list is zero |
| Summary.CountsOfAppended | src/App.js:59-82 | appending a player adds one to its year's bucket and to its trait's count, and nothing elsewhere |
| Summary.DefaultPlayerCounts | src/App.js:30 | appending the default player adds one Freshman, one to the total and one "Normal" |
| Summary.AddLeavesOtherRows | src/App.js:25-33 | adding at one position leaves every other position's rows in both summaries as they were |
| Summary.AddedRows | src/App.js:25-33 | after an add, a position's rows are the rows of its old list with the default player appended |
| Summary.AddShowsInYearSummary | src/App.js:25-68 | adding a player raises that position's Freshman and TotalPlayers by one and leaves its other buckets alone |
| Summary.AddShowsInTraitSummary | src/App.js:25-33 | adding a player raises that position's "Normal" count by one and leaves its other columns alone |
| Summary.TotalAfterReplace | src/App.js:71-73 | over a list of distinct positions, replacing one position's list changes the total by the change in its length if it is listed, and not at all otherwise |
| Summary.EditsShowInTeamTotal | src/App.js:99-104 | an add raises the team total by one; removing an existing player lowers it by one; an edit leaves it as it was |
| Scenarios.AddTo | src/App.js:25-33 | adding at a position whose list is `s` leaves `s` followed by the default player there |
| Scenarios.ChangeIn | src/App.js:45-53 | editing at a position whose list is `s` leaves the edited list there |
| Scenarios.QuarterbackEdits | src/App.js:25-53 | adding a quarterback, then setting year "FR(RS)" and trait "Star", leaves that single player at QB |
| Scenarios.OnePlayerRows | src/App.js:56-86 | a lone "FR(RS)" "Star" player, whatever the name, gives the class row {0, 1, 0, 0, 0, 1} and the trait row {0, 0, 1, 0} |
| Scenarios.OneQuarterbackTotal | src/App.js:71-73 | one quarterback on an otherwise empty roster makes the offense total one |
| Scenarios.RedshirtStarQuarterback | src/App.js:56-101 | after those edits on the initial roster, the QB rows show one Freshman and one "Star", and the offense total is one |
| Scenarios.ThreeReceiversAdded | src/App.js:25-33 | three adds to an empty receiver list leave three default players |
| Scenarios.ThreeReceiversNamed | src/App.js:45-53 | naming the three receivers edits each one's name in place |
| Scenarios.RemoveMiddleReceiver | src/App.js:25-53 | starting from an empty receiver list (as on the initial roster), adding and naming three receivers and removing index 1 leaves the first and the third, in order |

## Left out

- Rendering: the player form, the depth-chart views and the tab bodies are presentation only (src/App.js:107-359).
- The active tab and its buttons select which view is shown; they hold no roster logic.
- React state semantics: each handler is modelled as one synchronous replacement of the whole roster. Batched or asynchronous updates, and handlers that read a stale snapshot, are not modelled.
- Key order of the summary objects: the tracker lists rows with `Object.keys`, which follows insertion order. The model's summaries are maps, so they carry the keys and rows but not their order.
- Field keys are the three values the form passes (`'name'`, `'year'`, `'development'`). A handler call with any other key, which would add a fourth property to the record, is not modelled.
- Index arguments are unbounded integers. Non-integer or non-number indices, which JavaScript's strict comparison would also never match, are not modelled.
- Material-UI components are foreign library code and are not part of this model. So is `src/components/PlayerCard.js`, which `App` never uses.
