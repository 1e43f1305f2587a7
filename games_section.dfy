/**
  The games section: a grid of current games, a grid of past games that a
  row of genre buttons filters, the genre-distribution chart of the past
  games, and a details modal for the game last clicked.
 */
module GamesSection {
  import opened Seqs
  import opened Text
  import opened Optional
  import GenreChart

  /** The label of the "all genres" button, "전체" (Korean for "all"); it switches filtering off. */
  const All: string := "전체"

  datatype Game = Game(id: int, name: string, image: string, playTime: string, notes: string, genre: string)

  datatype GamesData = GamesData(currentGames: seq<Game>, pastGames: seq<Game>)

  /** The genre strings of a list of games. */
  function GenreStrings(games: seq<Game>): (r: seq<string>)
    ensures |r| == |games|
  {
    seq(|games|, i requires 0 <= i < |games| => games[i].genre)
  }

  /** Every trimmed label of every past game, in order. */
  function PastLabels(data: GamesData): seq<string> {
    GenreChart.AllLabels(GenreStrings(data.pastGames))
  }

  /** One game's `genres.forEach((genre) => allGenres.add(genre.trim()))`, on top of the labels `done`. */
  method AddGenres(ghost done: seq<string>, genre: string, allGenres0: seq<string>) returns (allGenres: seq<string>)
    requires allGenres0 == Distinct(done)
    ensures allGenres == Distinct(done + GenreChart.Labels(genre))
  {
    var genres := Split(genre, '|');
    ghost var labels := GenreChart.Labels(genre);
    allGenres := allGenres0;
    var j := 0;
    assert done + labels[..j] == done;
    while j < |genres|
      invariant 0 <= j <= |genres| == |labels|
      invariant allGenres == Distinct(done + labels[..j])
    {
      var g := Trim(genres[j]);
      assert g == labels[j];
      AddStep(done, labels, j, allGenres);
      if g !in allGenres {
        allGenres := allGenres + [g];
      }
      j := j + 1;
    }
    assert labels[..j] == labels;
  }

  lemma AddStep(done: seq<string>, labels: seq<string>, j: nat, d: seq<string>)
    requires j < |labels| && d == Distinct(done + labels[..j])
    ensures Distinct(done + labels[..j + 1]) == if labels[j] in d then d else d + [labels[j]]
  {
    assert done + labels[..j + 1] == (done + labels[..j]) + [labels[j]];
    DistinctSnoc(done + labels[..j], labels[j], d);
  }

  /**
    The `allGenres` set filled from the past games, as the list of its
    elements in insertion order (the order `Array.from` gives).
   */
  method CollectGenres(pastGames: seq<Game>) returns (allGenres: seq<string>)
    ensures allGenres == Distinct(GenreChart.AllLabels(GenreStrings(pastGames)))
  {
    ghost var gs := GenreStrings(pastGames);
    allGenres := [];
    var i := 0;
    while i < |pastGames|
      invariant 0 <= i <= |pastGames|
      invariant allGenres == Distinct(GenreChart.AllLabels(gs[..i]))
    {
      ghost var done := GenreChart.AllLabels(gs[..i]);
      allGenres := AddGenres(done, pastGames[i].genre, allGenres);
      assert GenreChart.AllLabels(gs[..i + 1]) == done + GenreChart.Labels(pastGames[i].genre) by {
        assert gs[..i + 1][..i] == gs[..i];
        assert gs[..i + 1][i] == pastGames[i].genre;
      }
      i := i + 1;
    }
    assert gs[..i] == gs;
  }

  /** Each string before the next one in JavaScript's default string order. */
  ghost predicate StrictlyAscending(s: seq<string>) {
    forall i, j :: 0 <= i < j < |s| ==> StrLess(s[i], s[j])
  }

  /** Place `x` in front of the first string it is less than. */
  function InsertString(x: string, t: seq<string>): (r: seq<string>)
    ensures multiset(r) == multiset{x} + multiset(t)
  {
    if t == [] || StrLess(x, t[0]) then [x] + t
    else
      assert t == [t[0]] + t[1..];
      [t[0]] + InsertString(x, t[1..])
  }

  lemma {:induction false} InsertStringSorted(x: string, t: seq<string>)
    requires StrictlyAscending(t) && x !in t
    ensures StrictlyAscending(InsertString(x, t))
  {
    if t == [] {
    } else if StrLess(x, t[0]) {
      forall e | e in t
        ensures StrLess(x, e)
      {
        if e != t[0] {
          var k :| 0 < k < |t| && t[k] == e;
          StrLessTransitive(x, t[0], e);
        }
      }
      AscendingCons(x, t);
    } else {
      StrLessTotal(x, t[0]);
      var t' := t[1..];
      assert StrictlyAscending(t') by {
        forall i, j | 0 <= i < j < |t'|
          ensures StrLess(t'[i], t'[j])
        {
          assert t'[i] == t[i + 1] && t'[j] == t[j + 1];
        }
      }
      InsertStringSorted(x, t');
      forall e | e in InsertString(x, t')
        ensures StrLess(t[0], e)
      {
        assert e in multiset(InsertString(x, t'));
        if e != x {
          var k :| 0 <= k < |t'| && t'[k] == e;
          assert e == t[k + 1];
        }
      }
      AscendingCons(t[0], InsertString(x, t'));
    }
  }

  /** A string before every element of an ascending list can go in front of it. */
  lemma AscendingCons(x: string, t: seq<string>)
    requires StrictlyAscending(t)
    requires forall e | e in t :: StrLess(x, e)
    ensures StrictlyAscending([x] + t)
  {
    var r := [x] + t;
    forall i, j | 0 <= i < j < |r|
      ensures StrLess(r[i], r[j])
    {
      assert r[j] == t[j - 1];
      if i > 0 {
        assert r[i] == t[i - 1];
      }
    }
  }

  /** A strictly ascending list has no duplicates. */
  lemma AscendingUnique(s: seq<string>)
    requires StrictlyAscending(s)
    ensures Unique(s)
  {
    forall i, j | 0 <= i < j < |s|
      ensures s[i] != s[j]
    {
      if s[i] == s[j] {
        StrLessIrreflexive(s[i]);
      }
    }
  }

  /**
    `Array.from(allGenres).sort()`: the set's elements (so no duplicates) in
    ascending default string order.
   */
  function SortStrings(s: seq<string>): (r: seq<string>)
    requires Unique(s)
    ensures multiset(r) == multiset(s)
    ensures StrictlyAscending(r)
  {
    if s == [] then []
    else
      assert s == [s[0]] + s[1..];
      var sorted := SortStrings(s[1..]);
      assert s[0] !in sorted by {
        assert s[0] !in s[1..];
        assert s[0] !in multiset(sorted);
      }
      InsertStringSorted(s[0], sorted);
      InsertString(s[0], sorted)
  }

  /** The genre buttons: `["전체", ...Array.from(allGenres).sort()]`. */
  function GenreList(data: GamesData): seq<string> {
    [All] + SortStrings(Distinct(PastLabels(data)))
  }

  /** The button list as the component builds it. */
  method GenreButtons(data: GamesData) returns (genres: seq<string>)
    ensures genres == GenreList(data)
  {
    var allGenres := CollectGenres(data.pastGames);
    genres := [All] + SortStrings(allGenres);
  }

  /**
    The buttons are "전체" and then every distinct trimmed label of the past
    games once, in ascending order.
   */
  lemma GenreListSpec(data: GamesData)
    ensures |GenreList(data)| == 1 + |Distinct(PastLabels(data))|
    ensures GenreList(data)[0] == All
    ensures StrictlyAscending(GenreList(data)[1..])
    ensures Unique(GenreList(data)[1..])
    ensures forall g :: g in GenreList(data)[1..] <==> g in PastLabels(data)
  {
    var d := Distinct(PastLabels(data));
    var rest := SortStrings(d);
    assert GenreList(data)[1..] == rest;
    assert |rest| == |d| by {
      assert |multiset(rest)| == |multiset(d)|;
    }
    AscendingUnique(rest);
    forall g
      ensures g in rest <==> g in d
    {
      assert g in rest <==> g in multiset(rest);
    }
  }

  /** The current games never contribute to the genre buttons. */
  lemma GenreListIgnoresCurrentGames(data: GamesData, otherCurrent: seq<Game>)
    ensures GenreList(data.(currentGames := otherCurrent)) == GenreList(data)
  {
  }

  /** `game.genre.split("|").map((g) => g.trim()).includes(genre)`. */
  predicate HasGenre(game: Game, genre: string) {
    genre in GenreChart.Labels(game.genre)
  }

  /**
    `filteredPastGames`: all past games under "전체"; otherwise, in their
    original order, exactly the past games one of whose trimmed labels is
    the selected genre.
   */
  function FilteredPastGames(pastGames: seq<Game>, selectedGenre: string): (r: seq<Game>)
    ensures selectedGenre == All ==> r == pastGames
    ensures selectedGenre != All ==> forall g | g in r :: g in pastGames && HasGenre(g, selectedGenre)
    ensures selectedGenre != All ==> forall g | g in pastGames && HasGenre(g, selectedGenre) :: g in r
    ensures selectedGenre != All ==>
      forall g | g in pastGames :: multiset(r)[g] == if HasGenre(g, selectedGenre) then multiset(pastGames)[g] else 0
    ensures IsSubsequence(r, pastGames)
  {
    if selectedGenre == All then
      assert IsSubsequence(pastGames, pastGames) by { SubsequenceReflexive(pastGames); }
      pastGames
    else
      Filter(pastGames, g => HasGenre(g, selectedGenre))
  }

  lemma {:induction false} SubsequenceReflexive<T>(s: seq<T>)
    ensures IsSubsequence(s, s)
  {
    if s != [] {
      SubsequenceReflexive(s[1..]);
    }
  }

  /** Choosing any listed genre other than "전체" leaves at least one past game on screen. */
  lemma ListedGenreShowsGames(data: GamesData, genre: string)
    requires genre in GenreList(data)[1..] && genre != All
    ensures FilteredPastGames(data.pastGames, genre) != []
  {
    GenreListSpec(data);
    var gs := GenreStrings(data.pastGames);
    var i := GenreChart.AllLabelsFromSomeGame(gs, genre);
    assert HasGenre(data.pastGames[i], genre);
    assert data.pastGames[i] in data.pastGames;
  }

  /**
    The modal's genre line `game.genre.split("|").join(", ")`: the genre
    string with every `|` written as ", " and the pieces left untrimmed.
   */
  function GenreText(genre: string): (r: string)
    ensures r == ReplaceChar(genre, '|', ", ")
  {
    JoinSplit(genre, '|', ", ");
    Join(Split(genre, '|'), ", ")
  }

  /** The section's state: the game whose modal is open and the selected genre button. */
  class GamesView {
    const data: GamesData
    var selectedGame: Option<Game>
    var selectedGenre: string

    /** Nothing is open and every past game is shown. */
    constructor(data: GamesData)
      ensures this.data == data && selectedGame == None && selectedGenre == All
    {
      this.data := data;
      selectedGame := None;
      selectedGenre := All;
    }

    /** The past games on screen. */
    function VisiblePastGames(): seq<Game>
      reads this
    {
      FilteredPastGames(data.pastGames, selectedGenre)
    }

    /** A click on a current or past game opens its modal. */
    method ClickGame(game: Game)
      modifies this
      ensures selectedGame == Some(game) && selectedGenre == old(selectedGenre)
    {
      selectedGame := Some(game);
    }

    /** A click on a genre button selects that genre. */
    method ClickGenre(genre: string)
      modifies this
      ensures selectedGenre == genre && selectedGame == old(selectedGame)
    {
      selectedGenre := genre;
    }

    /** The `keydown` listener: Escape closes an open modal; any other key, or no open modal, changes nothing. */
    method KeyDown(key: string)
      modifies this
      ensures key == "Escape" ==> selectedGame == None
      ensures key != "Escape" || old(selectedGame) == None ==> selectedGame == old(selectedGame)
      ensures selectedGenre == old(selectedGenre)
    {
      if key == "Escape" && selectedGame.Some? {
        selectedGame := None;
      }
    }

    /** A click inside the modal panel stops there and never reaches the backdrop. */
    method ClickPanel()
      ensures selectedGame == old(selectedGame) && selectedGenre == old(selectedGenre)
    {
    }

    /** A click on the backdrop or on the X button closes the modal. */
    method CloseModal()
      modifies this
      ensures selectedGame == None && selectedGenre == old(selectedGenre)
    {
      selectedGame := None;
    }
  }
}
