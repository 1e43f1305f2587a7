# Portfolio site logic, modelled in Dafny

The site is a one-page React portfolio of a game designer. Most of it is
markup. This project models the logic underneath and proves what that logic
guarantees.

- **Genre distribution chart** (`GenreChart`). Every past game's `genre`
  string is split on `|` and each piece is trimmed. The labels are counted
  into a label→count object. Its entries are then sorted by count, in
  descending order, with a stable sort.
  - `CountGenres` is the counting loop and keeps the object's key order.
  - `GenreDistributionChart` builds the entries, and `ChartData` is the
    function that specifies them.
  - `ColorIndex` is the palette lookup into the 18 chart colours.
- **Games section** (`GamesSection`).
  - The genre buttons are "전체" ("all"), then every distinct trimmed
    label of the past games in ascending string order.
    - `CollectGenres` fills the `Set`.
    - `SortStrings` is the default `sort()`.
    - `GenreButtons` puts the two together.
  - The filter the selected button applies (`FilteredPastGames`).
  - The modal's genre line (`GenreText`).
  - The modal and genre state as a class (`GamesView`).
- **Portfolio section** (`Portfolio`).
  - The project filter, which looks at `category` under the design tab and
    at `project` under the project tab (`FilteredProjects`).
  - The tab, filter and modal state as a class (`PortfolioView`).
- **About section** (`About`).
  - The work carousel's next, previous and dot clicks.
  - The accordion flag.
  - The doubled tools list of the marquee.
- **Profile sidebar** (`Profile`).
  - The two-image switch and its indicator dots.
  - Whitespace removed from the phone number for the `tel:` link.

Shared modules:
- `Seqs`: `filter` as `Filter`, first-appearance de-duplication as
  `Distinct`, and the subsequence relation.
- `Text`: JavaScript's whitespace set, `trim`, `split` on one character,
  `join`, and the default string order.
- `Cycle`: modular stepping and indicator dots.

JavaScript behaviour fixed by the model:
- `s.split("|")` always yields at least one piece, and `""` yields `[""]`.
- `trim` and the regular-expression class `\s` use the same whitespace set:
  - tab, LF, VT, FF, CR and space;
  - U+00A0, U+1680, U+2000 to U+200A, U+2028, U+2029, U+202F, U+205F, U+3000 and U+FEFF.
- A `Set` lists its elements in first-insertion order. A plain object does
  too, provided no key is integer-like (see `GenreChart.CountGenres` under
  "## Left out").
- `Array.prototype.sort` is stable. Without a comparator it orders strings
  lexicographically by character.
- `%` truncates in JavaScript and is Euclidean in Dafny. The two agree here
  because every operand is non-negative.

The chart code itself shows that an empty `games` array yields an empty
`chartData`. So the percentage division `value / games.length` never runs
on a zero total (`GenreDistributionChart` proves
`chartData == [] <==> games == []`).

## Model

| member | source | states |
|---|---|---|
| GenreChart.ColorIndex | components/genre-distribution-chart.tsx:75 | `index % COLORS.length` is always a valid index into the 18-colour palette, and is `index` itself for the first 18 entries |
| GenreChart.ColorIndexPeriodic | components/genre-distribution-chart.tsx:93 | entries 18 apart get the same colour |
| GenreChart.Labels | components/genre-distribution-chart.tsx:38 | definition: the genre string split on the vertical bar, each piece trimmed; the same labels as games-section.tsx:49 |
| GenreChart.LabelsLength | components/genre-distribution-chart.tsx:38 | a genre string yields one trimmed label more than it has vertical-bar characters |
| GenreChart.AllLabelsAtLeastOnePerGame | components/genre-distribution-chart.tsx:37-38 | all games together yield at least one label per game, even for an empty genre string |
| GenreChart.AllLabelsFromSomeGame | components/genre-distribution-chart.tsx:37-38 | every collected label comes from the genre string of some game |
| GenreChart.LabelsInAllLabels | components/genre-distribution-chart.tsx:37-38 | every label of every game is collected |
| GenreChart.CountStepKnown | components/genre-distribution-chart.tsx:40 | incrementing the count of a label already present keeps every count equal to its number of occurrences so far, and leaves the key order alone |
| GenreChart.CountStepNew | components/genre-distribution-chart.tsx:40 | a label seen for the first time gets count 1 and is appended to the key order, keeping the object exact |
| GenreChart.CountLabels | components/genre-distribution-chart.tsx:39-41 | the inner `forEach` over one game's labels keeps the count object exact for all labels seen |
| GenreChart.CountGenres | components/genre-distribution-chart.tsx:35-42 | the counting loop ends with the object's keys being exactly the labels, in first-appearance order, and each value being that label's number of occurrences, duplicates within one game included |
| GenreChart.Tally | components/genre-distribution-chart.tsx:44-47 | `Object.entries(...).map(...)` gives one entry per key |
| GenreChart.InsertByValue | components/genre-distribution-chart.tsx:50 | one insertion step of the sort adds exactly the inserted entry |
| GenreChart.InsertKeepsOrder | components/genre-distribution-chart.tsx:50 | inserting into a list sorted by descending value keeps it sorted |
| GenreChart.InsertIsStable | components/genre-distribution-chart.tsx:50 | inserting keeps the relative order of the entries with any given value |
| GenreChart.SortByValueDesc | components/genre-distribution-chart.tsx:50 | `.sort((a, b) => b.value - a.value)` returns a permutation of the entries with values non-increasing. It is stable: for every value, the entries with that value keep their input order |
| GenreChart.GenreDistributionChart | components/genre-distribution-chart.tsx:35-50 | the component's computation yields `ChartData(games)`, and yields no entries exactly when there are no games |
| GenreChart.TotalSort | components/genre-distribution-chart.tsx:50 | sorting keeps the sum of the values |
| GenreChart.TallyDistinctTotal | components/genre-distribution-chart.tsx:40-47 | the counts of the distinct labels add up to the number of labels |
| GenreChart.ChartData | components/genre-distribution-chart.tsx:37-50 | definition: the tally of all labels sorted by descending value, which `GenreDistributionChart` is proved to compute |
| GenreChart.ChartDataTotal | components/genre-distribution-chart.tsx:37-50 | the values of `chartData` add up to the total number of pieces, which is at least `games.length` |
| GenreChart.ChartDataEmpty | components/genre-distribution-chart.tsx:37-49 | `chartData` is empty exactly when `games` is empty, so the percentage is never computed against a zero total |
| GenreChart.ChartDataEntries | components/genre-distribution-chart.tsx:44-47 | every entry pairs some game's label with that label's number of occurrences |
| GenreChart.ChartDataCounts | components/genre-distribution-chart.tsx:40-47 | every entry's value is the number of occurrences of its name among all trimmed labels, and is at least 1 |
| GenreChart.ChartDataLabels | components/genre-distribution-chart.tsx:40-47 | the entry names are exactly the distinct trimmed labels, each exactly once |
| GenreChart.ChartDataOrder | components/genre-distribution-chart.tsx:44-50 | `chartData` is ordered by non-increasing value. Entries with equal value appear in the order their labels first appear across the games |
| GenreChart.RankedWithValue | components/genre-distribution-chart.tsx:44-50 | restricting an insertion-ordered entry list to one value keeps it insertion-ordered |
| GenreChart.TiesFollowRank | components/genre-distribution-chart.tsx:50 | two entries with the same value keep their first-appearance order |
| Seqs.Filter | components/games-section.tsx:48-51 | `filter` keeps exactly the elements satisfying the predicate, each with its original multiplicity, as a subsequence of the input |
| Seqs.FilterKeepsAll | components/portfolio-section.tsx:30-32 | a predicate true of every element keeps the whole list: the "all" key acting as `true` here, and a whitespace-free phone number in `StripWhitespaceKeepsClean` |
| Seqs.FilterIdempotent | components/profile-sidebar.tsx:90 | filtering twice by the same predicate is filtering once |
| Seqs.FilterCongruent | components/portfolio-section.tsx:28-34 | predicates that agree on the elements filter alike |
| Seqs.Distinct | components/games-section.tsx:38-42 | filling a `Set` from a list gives each element exactly once and nothing else |
| Seqs.DistinctSnoc | components/games-section.tsx:41 | `add` appends a new element and ignores one already present |
| Seqs.FirstIndex | components/genre-distribution-chart.tsx:40 | the position where a key is first inserted holds that key, and the key does not occur before it |
| Seqs.DistinctFirstAppearance | components/genre-distribution-chart.tsx:44 | the keys come out in the order of their first appearance in the input |
| Seqs.UniqueMultiplicity | components/genre-distribution-chart.tsx:44 | in a key list, each key occurs exactly once |
| Seqs.PermutationKeepsUnique | components/genre-distribution-chart.tsx:50 | a permutation of a duplicate-free list is duplicate-free |
| Text.IsWhitespace | components/profile-sidebar.tsx:90 | definition: the character set of `\s`, which is also the set `trim` removes at genre-distribution-chart.tsx:38 |
| Text.Trim | components/genre-distribution-chart.tsx:38 | definition: `trim`, also used at games-section.tsx:41 |
| Text.TrimStartSpec | components/genre-distribution-chart.tsx:38 | the left trim drops a whitespace-only prefix and stops at a non-whitespace character |
| Text.TrimEndSpec | components/genre-distribution-chart.tsx:38 | the right trim drops a whitespace-only suffix and stops at a non-whitespace character |
| Text.TrimSpec | components/genre-distribution-chart.tsx:38 | `trim` returns a contiguous slice with only whitespace around it, and nothing left to trim at either end |
| Text.TrimIdempotent | components/genre-distribution-chart.tsx:38 | trimming twice is trimming once |
| Text.Split | components/genre-distribution-chart.tsx:38 | splitting on the vertical bar yields at least one piece, and no piece contains a vertical bar |
| Text.SplitLength | components/genre-distribution-chart.tsx:38 | the number of pieces is the number of separators plus one |
| Text.JoinSplitRoundTrip | components/genre-distribution-chart.tsx:38 | joining the untrimmed pieces with the vertical bar reproduces the original string |
| Text.SplitJoinRoundTrip | components/genre-distribution-chart.tsx:38 | splitting a join of separator-free pieces gives the pieces back |
| Text.SplitSeparatorFree | components/genre-distribution-chart.tsx:38 | a string without a vertical bar splits into itself alone |
| Text.SplitAfterPiece | components/genre-distribution-chart.tsx:38 | a separator-free piece before a separator becomes the first piece |
| Text.Join | components/games-section.tsx:181 | definition: `join` of a list of pieces with a separator |
| Text.JoinSplit | components/games-section.tsx:181 | joining the split pieces with any text replaces every separator with that text |
| Text.ReplaceCharBySelf | components/games-section.tsx:181 | replacing a character by itself changes nothing |
| Text.StrLess | components/games-section.tsx:43 | definition: the default `sort()` order, lexicographic by character |
| Text.StrLessIrreflexive | components/games-section.tsx:43 | no string sorts before itself |
| Text.StrLessAsymmetric | components/games-section.tsx:43 | two strings never sort before each other |
| Text.StrLessTransitive | components/games-section.tsx:43 | the default string order is transitive |
| Text.StrLessTotal | components/games-section.tsx:43 | two different strings are always ordered one way or the other |
| GamesSection.AddGenres | components/games-section.tsx:40-41 | adding one game's trimmed pieces to the set keeps it equal to the distinct labels seen so far |
| GamesSection.AddStep | components/games-section.tsx:41 | one `allGenres.add(genre.trim())` extends the distinct labels by the newly seen label |
| GamesSection.CollectGenres | components/games-section.tsx:38-42 | `allGenres` ends as the distinct trimmed labels of the past games, in insertion order |
| GamesSection.InsertString | components/games-section.tsx:43 | one insertion step of the string sort adds exactly the inserted string |
| GamesSection.InsertStringSorted | components/games-section.tsx:43 | inserting a new string into a strictly ascending list keeps it strictly ascending |
| GamesSection.SortStrings | components/games-section.tsx:43 | `Array.from(allGenres).sort()` is a strictly ascending permutation of the set's elements |
| GamesSection.GenreList | components/games-section.tsx:43 | definition: "전체" followed by the sorted distinct labels of the past games |
| GamesSection.GenreButtons | components/games-section.tsx:38-43 | the button list the component builds is `GenreList(data)` |
| GamesSection.GenreListSpec | components/games-section.tsx:38-43 | the buttons are "전체", then each distinct trimmed label of the past games, exactly once and in ascending order, and nothing else |
| GamesSection.GenreListIgnoresCurrentGames | components/games-section.tsx:39 | the current games never affect the genre buttons |
| GamesSection.HasGenre | components/games-section.tsx:49-50 | definition: the game's trimmed pieces include the genre |
| GamesSection.FilteredPastGames | components/games-section.tsx:45-51 | under "전체" every past game is shown. Otherwise exactly the past games having the selected genre among their trimmed pieces are shown, in order and each as often as in the list |
| GamesSection.SubsequenceReflexive | components/games-section.tsx:47 | the unfiltered list is a subsequence of itself |
| GamesSection.ListedGenreShowsGames | components/games-section.tsx:38-51 | choosing any listed genre other than "전체" shows at least one past game |
| GamesSection.GenreText | components/games-section.tsx:181 | the modal's genre line is the genre string with each vertical bar replaced by ", ", with the pieces left untrimmed |
| GamesSection.GamesView.constructor | components/games-section.tsx:24-25 | initially no game is selected and the selected genre is "전체" |
| GamesSection.GamesView.ClickGame | components/games-section.tsx:126 | a game card opens that game's modal and leaves the genre as it was |
| GamesSection.GamesView.ClickGenre | components/games-section.tsx:109 | a genre button selects that genre and leaves the modal as it was |
| GamesSection.GamesView.KeyDown | components/games-section.tsx:28-32 | Escape closes the modal. Any other key, or Escape with no modal open, changes nothing |
| GamesSection.GamesView.ClickPanel | components/games-section.tsx:158 | a click inside the modal panel changes nothing |
| GamesSection.GamesView.CloseModal | components/games-section.tsx:163 | the backdrop and the X button close the modal, and nothing else changes |
| Portfolio.Keeps | components/portfolio-section.tsx:29-33 | definition: the filter callback, by tab and active key |
| Portfolio.FilteredProjects | components/portfolio-section.tsx:28-34 | under the design tab, "all" keeps every project and any other key keeps exactly the projects of that category. Under the project tab the same holds with `project`. The result is always an order-preserving subsequence of the projects |
| Portfolio.InactiveFilterIrrelevant | components/portfolio-section.tsx:28-34 | the filter key of the hidden tab never changes the result |
| Portfolio.FilteredMembership | components/portfolio-section.tsx:28-34 | a project is on screen exactly when it is one of the projects and matches the active key |
| Portfolio.PortfolioView.constructor | components/portfolio-section.tsx:12-15 | the initial state is the design tab, category "level design", project filter "all", and no modal |
| Portfolio.PortfolioView.ClickDesignTab | components/portfolio-section.tsx:45-49 | the design tab switches to design mode and resets the category filter to "all", so every project shows. Nothing else changes |
| Portfolio.PortfolioView.ClickProjectTab | components/portfolio-section.tsx:58-62 | the project tab switches to project mode and resets the project filter to "all", so every project shows. Nothing else changes |
| Portfolio.PortfolioView.ClickCategory | components/portfolio-section.tsx:78 | a category button changes only the category filter |
| Portfolio.PortfolioView.ClickProjectLogo | components/portfolio-section.tsx:94 | a project logo changes only the project filter |
| Portfolio.PortfolioView.ClickView | components/portfolio-section.tsx:139 | View opens that project's modal and leaves the filters alone |
| Portfolio.PortfolioView.KeyDown | components/portfolio-section.tsx:18-22 | Escape closes the modal. Any other key, or Escape with no modal open, changes nothing |
| Portfolio.PortfolioView.ClickBackdrop | components/portfolio-section.tsx:159 | a backdrop click closes the modal and leaves the filters alone |
| Portfolio.PortfolioView.ClickPanel | components/portfolio-section.tsx:163 | a click inside the modal panel changes nothing |
| Portfolio.PortfolioView.ClickClose | components/portfolio-section.tsx:196 | the X button closes the modal and leaves the filters alone |
| Cycle.Next | components/about-section.tsx:25-27 | for `n > 0`, `(i + 1) % n` stays in `[0, n)`. It wraps from the last index to 0 and otherwise adds one |
| Cycle.Prev | components/about-section.tsx:29-31 | for `n > 0`, `(i - 1 + n) % n` stays in `[0, n)`. It wraps from 0 to the last index and otherwise subtracts one |
| Cycle.PrevAfterNext | components/about-section.tsx:25-31 | previous after next returns to the same index |
| Cycle.NextAfterPrev | components/about-section.tsx:25-31 | next after previous returns to the same index |
| Cycle.AdvanceAdd | components/about-section.tsx:26 | `a` next-steps followed by `b` next-steps are `a + b` next-steps |
| Cycle.AdvanceWithinRange | components/about-section.tsx:26 | away from the end, `k` next-steps add `k` |
| Cycle.FullCycle | components/about-section.tsx:26 | `n` next-steps return to the starting index |
| Cycle.Dots | components/about-section.tsx:162-168 | one dot per item, highlighted exactly at the current index |
| Cycle.ExactlyOneDot | components/about-section.tsx:162-168 | exactly one dot is highlighted when the index is in range, and none otherwise |
| About.AboutView.constructor | components/about-section.tsx:22-23 | the first work is shown and the accordion is closed |
| About.AboutView.ClickNext | components/about-section.tsx:25-27 | the next button steps forward modulo the number of works and stays in range |
| About.AboutView.ClickPrev | components/about-section.tsx:29-31 | the previous button steps back modulo the number of works and stays in range |
| About.AboutView.ClickDot | components/about-section.tsx:165 | dot `k` shows work `k` |
| About.AboutView.ToggleHistory | components/about-section.tsx:49 | the accordion header negates the open flag |
| About.AboutView.ActiveDots | components/about-section.tsx:162-168 | one dot per work |
| About.ToggleHistoryTwice | components/about-section.tsx:49 | two accordion clicks restore the flag |
| About.Doubled | components/about-section.tsx:192 | `[...tools, ...tools]` has twice the length, and element `k` and the element one tools-length later are both `tools[k]` |
| About.DoubledMultiplicity | components/about-section.tsx:192 | every tool appears twice as often in the marquee |
| Profile.ProfileSidebar.constructor | components/profile-sidebar.tsx:18 | the first picture is shown |
| Profile.ProfileSidebar.ToggleImage | components/profile-sidebar.tsx:20-22 | the switch steps modulo the two pictures, so the index stays in `[0, 2)` and alternates between 0 and 1 |
| Profile.ProfileSidebar.CurrentImage | components/profile-sidebar.tsx:32 | the shown source is never empty and is either a profile picture or the placeholder; from an in-range index it is a real picture and never the placeholder |
| Profile.ShownImageIsReal | components/profile-sidebar.tsx:18-32 | from every index the constructor and the switch produce, the picture at that index is shown, the placeholder fallback never fires, and the other picture differs from it |
| Profile.ProfileSidebar.ImageDots | components/profile-sidebar.tsx:45-51 | one dot per picture |
| Profile.ToggleImageTwice | components/profile-sidebar.tsx:21 | two toggles show the same picture again |
| Profile.ExactlyOneImageDot | components/profile-sidebar.tsx:45-51 | exactly one of the two indicator dots is highlighted |
| Profile.StripWhitespace | components/profile-sidebar.tsx:90 | `replace(/\s/g, "")` leaves no whitespace and keeps every other character in order and with its multiplicity |
| Profile.StripWhitespaceIdempotent | components/profile-sidebar.tsx:90 | stripping twice is stripping once |
| Profile.StripWhitespaceKeepsClean | components/profile-sidebar.tsx:90 | a number without whitespace is left unchanged |
| Profile.TelHref | components/profile-sidebar.tsx:90 | the phone link is `tel:` followed by the stripped number, and contains no whitespace |

## Left out

- The `percentage` field, `((value / games.length) * 100).toFixed(1)`, is left out. It is floating-point division and decimal formatting. It is computed only for non-empty `games`, as `GenreChart.GenreDistributionChart` shows.
- Rendering is left out: JSX, Tailwind class strings, the carousel's `translateX` transform, the lucide icons, and the recharts pie chart and tooltip. These are presentation and foreign library code.
- The `useEffect` registration and removal of the `keydown` listeners is left out. It is browser event plumbing. Only the state change an Escape key causes is modelled (`KeyDown`).
- The PDF viewer URL built with `encodeURIComponent`, and the download and new-tab links, are left out. They are a library call and external I/O.
- The contact section, the hero section and the resume section are not part of this model. They are static markup.
- The static input data is taken as abstract parameters: the sequences of games, projects and works, and the tools list. The data module it comes from is not part of this model.
- The logo lookup `data.projectLogos[project] || "/placeholder.svg"` is left out. It only selects an image.
- GenreChart.CountGenres: the model assumes no label is integer-like (such as "2024"). JavaScript lists integer-like keys first, in numeric order, which would change the tie order of the chart. The model also assumes no label names an `Object.prototype` member such as "constructor", for which `genreCount[genre] || 0` would read an inherited value.
- GamesSection.SortStrings: it compares Unicode code points. The JavaScript sort compares UTF-16 code units. The two orders agree for characters of the Basic Multilingual Plane, which includes Hangul, and differ only for characters outside it.
- About.AboutView.ClickNext and About.AboutView.ClickPrev require at least one work. With no works the modulus is zero and JavaScript yields `NaN`, which the model does not represent.
- GamesSection.GamesView and Portfolio.PortfolioView keep the selected game or project as a value. React's object identity is not modelled.
