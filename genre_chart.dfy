/**
  The genre-distribution pie chart. Every game's genre string is split on
  `|` and each piece trimmed; occurrences are counted into a label-to-count
  object; the object's entries become chart slices sorted by count,
  largest first, with ties left in the object's key order.

  A plain JavaScript object lists its keys in insertion order, except that
  integer-like keys ("1", "42") come first in numeric order; the model
  assumes genre labels are not integer-like, so key order is first
  appearance.
 */
module GenreChart {
  import opened Seqs
  import opened Text

  /** One slice: a genre label and how many pieces carry it. */
  datatype Entry = Entry(name: string, value: nat)

  /** The slice and legend palette. */
  const Colors: seq<string> := [
    "#3b82f6", "#8b5cf6", "#ef4444", "#f59e0b", "#10b981", "#06b6d4",
    "#ec4899", "#f97316", "#6366f1", "#14b8a6", "#a855f7", "#84cc16",
    "#f43f5e", "#22d3ee", "#eab308", "#64748b", "#78716c", "#a3a3a3"
  ]

  /** `index % COLORS.length`: the palette entry of the slice at `index`. */
  function ColorIndex(index: nat): (c: nat)
    ensures c < |Colors| == 18
    ensures index < |Colors| ==> c == index
  {
    index % |Colors|
  }

  /** The palette repeats every 18 slices. */
  lemma ColorIndexPeriodic(index: nat)
    ensures ColorIndex(index + |Colors|) == ColorIndex(index)
  {
  }

  /** `genre.split("|").map((g) => g.trim())`. */
  function Labels(genre: string): seq<string> {
    var pieces := Split(genre, '|');
    seq(|pieces|, i requires 0 <= i < |pieces| => Trim(pieces[i]))
  }

  /** A genre string yields one label more than it has `|` characters. */
  lemma LabelsLength(genre: string)
    ensures |Labels(genre)| == multiset(genre)['|'] + 1
  {
    SplitLength(genre, '|');
  }

  /** All labels of all games, game by game, in order. */
  function AllLabels(games: seq<string>): seq<string> {
    if games == [] then [] else AllLabels(games[..|games| - 1]) + Labels(games[|games| - 1])
  }

  /** Every genre string, even `""`, contributes at least one label. */
  lemma {:induction false} AllLabelsAtLeastOnePerGame(games: seq<string>)
    ensures |AllLabels(games)| >= |games|
  {
    if games != [] {
      AllLabelsAtLeastOnePerGame(games[..|games| - 1]);
    }
  }

  /** A label of any one game occurs in the whole list. */
  lemma {:induction false} LabelsInAllLabels(games: seq<string>, i: nat, x: string)
    requires i < |games| && x in Labels(games[i])
    ensures x in AllLabels(games)
  {
    var p := games[..|games| - 1];
    if i < |p| {
      assert p[i] == games[i];
      LabelsInAllLabels(p, i, x);
    }
  }

  /** Every label in the whole list comes from some game. */
  lemma {:induction false} AllLabelsFromSomeGame(games: seq<string>, x: string) returns (i: nat)
    requires x in AllLabels(games)
    ensures i < |games| && x in Labels(games[i])
  {
    var p := games[..|games| - 1];
    if x in Labels(games[|games| - 1]) {
      i := |games| - 1;
    } else {
      i := AllLabelsFromSomeGame(p, x);
      assert games[i] == p[i];
    }
  }

  /** What the counting loop maintains: keys in first-appearance order and the count of every key. */
  ghost predicate Counted(labels: seq<string>, order: seq<string>, genreCount: map<string, nat>) {
    && order == Distinct(labels)
    && (forall k :: k in genreCount <==> k in labels)
    && (forall k :: k in genreCount ==> genreCount[k] == multiset(labels)[k])
  }

  /** One step of the counting loop for a label already counted: its count goes up by one. */
  lemma CountStepKnown(labels: seq<string>, x: string, next: seq<string>, order: seq<string>, genreCount: map<string, nat>)
    requires Counted(labels, order, genreCount)
    requires next == labels + [x] && x in genreCount
    ensures Counted(next, order, genreCount[x := genreCount[x] + 1])
  {
    DistinctSnoc(labels, x, order);
    CountKeys(labels, x, next, genreCount, genreCount[x] + 1);
    CountValues(labels, x, next, genreCount, genreCount[x] + 1);
  }

  /** One step of the counting loop for a new label: it gets count 1 and joins the key order. */
  lemma CountStepNew(labels: seq<string>, x: string, next: seq<string>, order: seq<string>, genreCount: map<string, nat>)
    requires Counted(labels, order, genreCount)
    requires next == labels + [x] && x !in genreCount
    ensures Counted(next, order + [x], genreCount[x := 1])
  {
    assert x !in order by {
      assert x !in labels;
    }
    DistinctSnoc(labels, x, order);
    CountKeys(labels, x, next, genreCount, 1);
    CountValues(labels, x, next, genreCount, 1);
  }

  /** After the update the keys are exactly the labels, the new one included. */
  lemma CountKeys(labels: seq<string>, x: string, next: seq<string>, genreCount: map<string, nat>, c: nat)
    requires forall k :: k in genreCount <==> k in labels
    requires next == labels + [x]
    ensures forall k :: k in genreCount[x := c] <==> k in next
  {
    forall k
      ensures k in genreCount[x := c] <==> k in next
    {
      assert k in next <==> k in labels || k == x;
    }
  }

  /** Setting `x` to one more than its old count (0 if missing) keeps every value equal to its multiplicity. */
  lemma CountValues(labels: seq<string>, x: string, next: seq<string>, genreCount: map<string, nat>, c: nat)
    requires forall k :: k in genreCount ==> genreCount[k] == multiset(labels)[k]
    requires forall k :: k in genreCount <==> k in labels
    requires next == labels + [x]
    requires c == (if x in genreCount then genreCount[x] else 0) + 1
    ensures forall k :: k in genreCount[x := c] ==> genreCount[x := c][k] == multiset(next)[k]
  {
    var m := multiset(labels) + multiset{x};
    assert multiset(next) == m;
    assert x !in genreCount ==> multiset(labels)[x] == 0;
    forall k | k in genreCount[x := c]
      ensures genreCount[x := c][k] == m[k]
    {
      assert m[k] == multiset(labels)[k] + (if k == x then 1 else 0);
    }
  }

  /**
    The inner `genres.forEach`: count the labels of one game on top of the
    counts of the labels `done` seen so far.
   */
  method CountLabels(ghost done: seq<string>, genres: seq<string>, order0: seq<string>, genreCount0: map<string, nat>)
    returns (order: seq<string>, genreCount: map<string, nat>)
    requires Counted(done, order0, genreCount0)
    ensures Counted(done + genres, order, genreCount)
  {
    order, genreCount := order0, genreCount0;
    var j := 0;
    assert done + genres[..j] == done;
    while j < |genres|
      invariant 0 <= j <= |genres|
      invariant Counted(done + genres[..j], order, genreCount)
    {
      var genre := genres[j];
      assert done + genres[..j + 1] == (done + genres[..j]) + [genre];
      if genre in genreCount {
        CountStepKnown(done + genres[..j], genre, done + genres[..j + 1], order, genreCount);
        genreCount := genreCount[genre := genreCount[genre] + 1];
      } else {
        CountStepNew(done + genres[..j], genre, done + genres[..j + 1], order, genreCount);
        genreCount := genreCount[genre := 1];
        order := order + [genre];
      }
      j := j + 1;
    }
    assert genres[..j] == genres;
  }

  /**
    The counting loop: `genreCount[genre] = (genreCount[genre] || 0) + 1` for
    every label of every game. `order` is the object's key order. Each label
    ends up with the number of its occurrences, duplicates within one genre
    string included.
   */
  method CountGenres(games: seq<string>) returns (order: seq<string>, genreCount: map<string, nat>)
    ensures order == Distinct(AllLabels(games))
    ensures forall k :: k in genreCount <==> k in AllLabels(games)
    ensures forall k :: k in genreCount ==> genreCount[k] == multiset(AllLabels(games))[k]
  {
    order, genreCount := [], map[];
    var i := 0;
    while i < |games|
      invariant 0 <= i <= |games|
      invariant Counted(AllLabels(games[..i]), order, genreCount)
    {
      ghost var done := AllLabels(games[..i]);
      var genres := Labels(games[i]);
      order, genreCount := CountLabels(done, genres, order, genreCount);
      assert AllLabels(games[..i + 1]) == done + genres by {
        assert games[..i + 1][..i] == games[..i];
        assert games[..i + 1][i] == games[i];
      }
      i := i + 1;
    }
    assert games[..i] == games;
  }

  /** Slices for `keys`, each with its number of occurrences in `labels`. */
  function Tally(keys: seq<string>, labels: seq<string>): (t: seq<Entry>)
    ensures |t| == |keys|
  {
    seq(|keys|, i requires 0 <= i < |keys| => Entry(keys[i], multiset(labels)[keys[i]]))
  }

  /** The labels of a list of slices. */
  function Names(entries: seq<Entry>): (r: seq<string>)
    ensures |r| == |entries|
  {
    seq(|entries|, i requires 0 <= i < |entries| => entries[i].name)
  }

  /** Sum of the slices' values. */
  function Total(entries: seq<Entry>): nat {
    if entries == [] then 0 else entries[0].value + Total(entries[1..])
  }

  /** The slices whose value is `v`, in order. */
  function WithValue(entries: seq<Entry>, v: nat): seq<Entry> {
    if entries == [] then []
    else (if entries[0].value == v then [entries[0]] else []) + WithValue(entries[1..], v)
  }

  /** Largest value first. */
  ghost predicate NonIncreasing(entries: seq<Entry>) {
    forall i, j :: 0 <= i < j < |entries| ==> entries[i].value >= entries[j].value
  }

  /** Place `x` in front of the first slice whose value does not exceed its own. */
  function InsertByValue(x: Entry, t: seq<Entry>): (r: seq<Entry>)
    ensures multiset(r) == multiset{x} + multiset(t)
  {
    if t == [] || x.value >= t[0].value then [x] + t
    else
      assert t == [t[0]] + t[1..];
      [t[0]] + InsertByValue(x, t[1..])
  }

  lemma {:induction false} InsertKeepsOrder(x: Entry, t: seq<Entry>)
    requires NonIncreasing(t)
    ensures NonIncreasing(InsertByValue(x, t))
  {
    if t == [] || x.value >= t[0].value {
      if t != [] {
        HeadBounds(t);
      }
      ConsKeepsOrder(x, t);
    } else {
      var t' := t[1..];
      TailKeepsOrder(t);
      InsertKeepsOrder(x, t');
      HeadBounds(t);
      InsertBounded(x, t', t[0].value);
      assert InsertByValue(x, t) == [t[0]] + InsertByValue(x, t');
      ConsKeepsOrder(t[0], InsertByValue(x, t'));
    }
  }

  /** The first slice of a sorted list has the largest value. */
  lemma HeadBounds(t: seq<Entry>)
    requires t != [] && NonIncreasing(t)
    ensures forall e | e in t[1..] :: e.value <= t[0].value
  {
    forall e | e in t[1..]
      ensures e.value <= t[0].value
    {
      var k :| 0 <= k < |t[1..]| && t[1..][k] == e;
      assert e == t[k + 1];
    }
  }

  /** Dropping the first slice keeps a list sorted. */
  lemma TailKeepsOrder(t: seq<Entry>)
    requires t != [] && NonIncreasing(t)
    ensures NonIncreasing(t[1..])
  {
    var t' := t[1..];
    forall i, j | 0 <= i < j < |t'|
      ensures t'[i].value >= t'[j].value
    {
      assert t'[i] == t[i + 1] && t'[j] == t[j + 1];
    }
  }

  /** A slice in front of a sorted list of no larger values gives a sorted list. */
  lemma ConsKeepsOrder(e: Entry, rest: seq<Entry>)
    requires NonIncreasing(rest)
    requires forall f | f in rest :: f.value <= e.value
    ensures NonIncreasing([e] + rest)
  {
    var r := [e] + rest;
    forall i, j | 0 <= i < j < |r|
      ensures r[i].value >= r[j].value
    {
      assert r[j] == rest[j - 1];
      if i > 0 {
        assert r[i] == rest[i - 1];
      }
    }
  }

  /** Inserting keeps every value below a common bound. */
  lemma InsertBounded(x: Entry, t: seq<Entry>, b: nat)
    requires x.value <= b
    requires forall f | f in t :: f.value <= b
    ensures forall f | f in InsertByValue(x, t) :: f.value <= b
  {
    forall f | f in InsertByValue(x, t)
      ensures f.value <= b
    {
      assert f in multiset(InsertByValue(x, t));
      assert f == x || f in multiset(t);
    }
  }

  /** A leading slice of value `v` stays in front of the filtered rest. */
  lemma WithValueConsHit(e: Entry, rest: seq<Entry>, v: nat)
    requires e.value == v
    ensures WithValue([e] + rest, v) == [e] + WithValue(rest, v)
  {
    assert ([e] + rest)[1..] == rest;
  }

  /** A leading slice of another value is filtered out. */
  lemma WithValueConsMiss(e: Entry, rest: seq<Entry>, v: nat)
    requires e.value != v
    ensures WithValue([e] + rest, v) == WithValue(rest, v)
  {
    assert ([e] + rest)[1..] == rest;
    assert [] + WithValue(rest, v) == WithValue(rest, v);
  }

  lemma {:induction false} InsertIsStable(x: Entry, t: seq<Entry>, v: nat)
    ensures WithValue(InsertByValue(x, t), v) == WithValue([x] + t, v)
  {
    if t != [] && x.value < t[0].value {
      var t0, t' := t[0], t[1..];
      assert t == [t0] + t';
      var rest := InsertByValue(x, t');
      assert InsertByValue(x, t) == [t0] + rest;
      InsertIsStable(x, t', v);
      if t0.value == v {
        calc {
          WithValue(InsertByValue(x, t), v);
          { WithValueConsHit(t0, rest, v); }
          [t0] + WithValue(rest, v);
          { WithValueConsMiss(x, t', v); }
          [t0] + WithValue(t', v);
          { WithValueConsHit(t0, t', v); }
          WithValue(t, v);
          { WithValueConsMiss(x, t, v); }
          WithValue([x] + t, v);
        }
      } else {
        calc {
          WithValue(InsertByValue(x, t), v);
          { WithValueConsMiss(t0, rest, v); }
          WithValue(rest, v);
          WithValue([x] + t', v);
          { WithValueConsMiss(t0, t', v); ConsSameTail(x, t', t, v); }
          WithValue([x] + t, v);
        }
      }
    }
  }

  /** Filtering `[x] + a` and `[x] + b` differs only by what `a` and `b` filter to. */
  lemma ConsSameTail(x: Entry, a: seq<Entry>, b: seq<Entry>, v: nat)
    requires WithValue(a, v) == WithValue(b, v)
    ensures WithValue([x] + a, v) == WithValue([x] + b, v)
  {
    assert ([x] + a)[1..] == a;
    assert ([x] + b)[1..] == b;
  }

  /**
    `sort((a, b) => b.value - a.value)`: a stable sort, largest value first.
    The result is a permutation of the input, is non-increasing, and for
    every value `v` keeps the slices of value `v` in their input order.
   */
  function SortByValueDesc(s: seq<Entry>): (r: seq<Entry>)
    ensures multiset(r) == multiset(s)
    ensures NonIncreasing(r)
    ensures forall v :: WithValue(r, v) == WithValue(s, v)
  {
    if s == [] then []
    else
      var sorted := SortByValueDesc(s[1..]);
      assert s == [s[0]] + s[1..];
      InsertKeepsOrder(s[0], sorted);
      assert forall v :: WithValue(InsertByValue(s[0], sorted), v) == WithValue(s, v) by {
        forall v ensures WithValue(InsertByValue(s[0], sorted), v) == WithValue(s, v) {
          InsertIsStable(s[0], sorted, v);
          assert ([s[0]] + sorted)[1..] == sorted;
        }
      }
      InsertByValue(s[0], sorted)
  }

  /** `chartData` as a function of the genre strings (the percentage aside). */
  function ChartData(games: seq<string>): seq<Entry> {
    var labels := AllLabels(games);
    SortByValueDesc(Tally(Distinct(labels), labels))
  }

  /**
    The component's computation: the counting loop, then `Object.entries`
    mapped to slices and sorted. No slice is produced for an empty game
    list, so no percentage is ever computed against a zero total.
   */
  method GenreDistributionChart(games: seq<string>) returns (chartData: seq<Entry>)
    ensures chartData == ChartData(games)
    ensures chartData == [] <==> games == []
  {
    var order, genreCount := CountGenres(games);
    var entries := seq(|order|, i requires 0 <= i < |order| => Entry(order[i], genreCount[order[i]]));
    chartData := SortByValueDesc(entries);
    ghost var labels := AllLabels(games);
    assert entries == Tally(order, labels) by {
      forall i | 0 <= i < |order|
        ensures entries[i] == Tally(order, labels)[i]
      {
        assert order[i] in labels;
      }
    }
    ChartDataEmpty(games);
  }

  /** There are slices exactly when there are games. */
  lemma ChartDataEmpty(games: seq<string>)
    ensures ChartData(games) == [] <==> games == []
  {
    var labels := AllLabels(games);
    var t := Tally(Distinct(labels), labels);
    assert |ChartData(games)| == |t| by {
      assert |multiset(ChartData(games))| == |multiset(t)|;
    }
    AllLabelsAtLeastOnePerGame(games);
    if games != [] {
      assert labels[0] in Distinct(labels);
    }
  }

  // Properties of the chart data.

  lemma {:induction false} TotalSnoc(a: seq<Entry>, e: Entry)
    ensures Total(a + [e]) == Total(a) + e.value
  {
    if a != [] {
      assert (a + [e])[1..] == a[1..] + [e];
      TotalSnoc(a[1..], e);
    }
  }

  lemma {:induction false} TotalInsert(x: Entry, t: seq<Entry>)
    ensures Total(InsertByValue(x, t)) == x.value + Total(t)
  {
    if t != [] && x.value < t[0].value {
      TotalInsert(x, t[1..]);
      assert ([t[0]] + InsertByValue(x, t[1..]))[1..] == InsertByValue(x, t[1..]);
    }
  }

  /** Sorting does not change the sum of the values. */
  lemma {:induction false} TotalSort(s: seq<Entry>)
    ensures Total(SortByValueDesc(s)) == Total(s)
  {
    if s != [] {
      TotalSort(s[1..]);
      TotalInsert(s[0], SortByValueDesc(s[1..]));
    }
  }

  lemma TallySnoc(keys: seq<string>, k: string, labels: seq<string>)
    ensures Tally(keys + [k], labels) == Tally(keys, labels) + [Entry(k, multiset(labels)[k])]
  {
  }

  /** One more label adds one to the total of the tallied keys exactly when the label is one of them. */
  lemma {:induction false} TallyStep(keys: seq<string>, labels: seq<string>, x: string)
    requires Unique(keys)
    ensures Total(Tally(keys, labels + [x])) == Total(Tally(keys, labels)) + (if x in keys then 1 else 0)
  {
    if keys != [] {
      var ks, k := keys[..|keys| - 1], keys[|keys| - 1];
      assert keys == ks + [k];
      TallyStep(ks, labels, x);
      TallySnoc(ks, k, labels + [x]);
      TallySnoc(ks, k, labels);
      TotalSnoc(Tally(ks, labels + [x]), Entry(k, multiset(labels + [x])[k]));
      TotalSnoc(Tally(ks, labels), Entry(k, multiset(labels)[k]));
      assert multiset(labels + [x]) == multiset(labels) + multiset{x};
      assert x == k ==> x !in ks;
    }
  }

  /** Tallying the distinct labels accounts for every label exactly once. */
  lemma {:induction false} TallyDistinctTotal(labels: seq<string>)
    ensures Total(Tally(Distinct(labels), labels)) == |labels|
  {
    if labels != [] {
      var p, x := labels[..|labels| - 1], labels[|labels| - 1];
      assert labels == p + [x];
      TallyDistinctTotal(p);
      TallyStep(Distinct(p), p, x);
      if x !in Distinct(p) {
        TallySnoc(Distinct(p), x, labels);
        TotalSnoc(Tally(Distinct(p), labels), Entry(x, multiset(labels)[x]));
        assert multiset(labels)[x] == 1 by {
          assert multiset(labels) == multiset(p) + multiset{x};
        }
      }
    }
  }

  /**
    The values add up to the number of labels, which is at least the number
    of games (several genres in one string make it larger).
   */
  lemma ChartDataTotal(games: seq<string>)
    ensures Total(ChartData(games)) == |AllLabels(games)| >= |games|
  {
    var labels := AllLabels(games);
    TotalSort(Tally(Distinct(labels), labels));
    TallyDistinctTotal(labels);
    AllLabelsAtLeastOnePerGame(games);
  }

  /** Every slice carries the number of occurrences of its label, which is at least one. */
  lemma ChartDataCounts(games: seq<string>)
    ensures forall i :: 0 <= i < |ChartData(games)| ==>
      ChartData(games)[i].value == multiset(AllLabels(games))[ChartData(games)[i].name] >= 1
  {
    var cd := ChartData(games);
    ChartDataEntries(games);
    forall i | 0 <= i < |cd|
      ensures cd[i].value == multiset(AllLabels(games))[cd[i].name] >= 1
    {
      assert cd[i] in cd;
    }
  }

  /** Each slice of a tally is one of its keys with that key's number of occurrences. */
  lemma TallyEntries(keys: seq<string>, labels: seq<string>)
    ensures forall e | e in Tally(keys, labels) :: e.name in keys && e.value == multiset(labels)[e.name]
  {
    var t := Tally(keys, labels);
    forall e | e in t
      ensures e.name in keys && e.value == multiset(labels)[e.name]
    {
      var m :| 0 <= m < |t| && t[m] == e;
      assert e.name == keys[m];
    }
  }

  /** Every slice is a label of some game paired with its number of occurrences. */
  lemma ChartDataEntries(games: seq<string>)
    ensures forall e | e in ChartData(games) ::
      e.name in AllLabels(games) && e.value == multiset(AllLabels(games))[e.name]
  {
    var labels := AllLabels(games);
    var d := Distinct(labels);
    var t := Tally(d, labels);
    TallyEntries(d, labels);
    forall e | e in ChartData(games)
      ensures e in t
    {
      assert e in multiset(ChartData(games));
    }
  }

  /** No two slices of the tally are equal, since its labels are distinct. */
  lemma TallyUnique(labels: seq<string>)
    ensures Unique(Tally(Distinct(labels), labels))
  {
    var d := Distinct(labels);
    var t := Tally(d, labels);
    forall i, j | 0 <= i < j < |t| ensures t[i] != t[j] {
      assert t[i].name == d[i] && t[j].name == d[j];
    }
  }

  /** Each distinct label gets exactly one slice, and no other slice exists. */
  lemma ChartDataLabels(games: seq<string>)
    ensures forall k :: k in Names(ChartData(games)) <==> k in AllLabels(games)
    ensures Unique(Names(ChartData(games)))
  {
    ChartDataNamesUnique(games);
    ChartDataCoversLabels(games);
  }

  /** No label names two slices. */
  lemma ChartDataNamesUnique(games: seq<string>)
    ensures Unique(Names(ChartData(games)))
  {
    var labels := AllLabels(games);
    var cd := ChartData(games);
    var names := Names(cd);
    TallyUnique(labels);
    PermutationKeepsUnique(Tally(Distinct(labels), labels), cd);
    ChartDataEntries(games);
    forall i, j | 0 <= i < j < |names|
      ensures names[i] != names[j]
    {
      assert cd[i] in cd && cd[j] in cd;
      assert names[i] == cd[i].name && names[j] == cd[j].name;
    }
  }

  /** The slice names are exactly the labels. */
  lemma ChartDataCoversLabels(games: seq<string>)
    ensures forall k :: k in Names(ChartData(games)) <==> k in AllLabels(games)
  {
    var labels := AllLabels(games);
    var cd := ChartData(games);
    var names := Names(cd);
    ChartDataEntries(games);
    forall i | 0 <= i < |names|
      ensures names[i] in labels
    {
      assert names[i] == cd[i].name;
      assert cd[i] in cd;
    }
    forall k | k in labels
      ensures k in names
    {
      var i := LabelHasSlice(games, k);
      assert names[i] == k;
    }
  }

  /** Every label names some slice. */
  lemma LabelHasSlice(games: seq<string>, k: string) returns (i: nat)
    requires k in AllLabels(games)
    ensures i < |ChartData(games)| && ChartData(games)[i].name == k
  {
    var labels := AllLabels(games);
    var d := Distinct(labels);
    var t := Tally(d, labels);
    var m := FirstIndex(d, k);
    assert t[m] in multiset(ChartData(games));
    i :| 0 <= i < |ChartData(games)| && ChartData(games)[i] == t[m];
  }

  /** Where `x` first appears in `labels`, or `|labels|` if it does not. */
  function Rank(labels: seq<string>, x: string): nat {
    if x in labels then FirstIndex(labels, x) else |labels|
  }

  /** The slices are ranked by the first appearance of their labels in `labels`. */
  ghost predicate RankedByFirstAppearance(s: seq<Entry>, labels: seq<string>) {
    forall i, j :: 0 <= i < j < |s| ==> Rank(labels, s[i].name) < Rank(labels, s[j].name)
  }

  lemma {:induction false} RankedWithValue(s: seq<Entry>, labels: seq<string>, v: nat)
    requires RankedByFirstAppearance(s, labels)
    ensures RankedByFirstAppearance(WithValue(s, v), labels)
  {
    if s != [] {
      var rest := WithValue(s[1..], v);
      RankedTail(s, labels);
      RankedWithValue(s[1..], labels, v);
      if s[0].value == v {
        RankedHeadBounds(s, labels);
        WithValueSubset(s[1..], v);
        RankedCons(s[0], rest, labels);
        assert WithValue(s, v) == [s[0]] + rest;
      } else {
        assert WithValue(s, v) == rest;
      }
    }
  }

  /** Filtering by value only drops slices. */
  lemma {:induction false} WithValueSubset(s: seq<Entry>, v: nat)
    ensures forall e | e in WithValue(s, v) :: e in s
  {
    if s != [] {
      WithValueSubset(s[1..], v);
      assert forall e | e in s[1..] :: e in s;
    }
  }

  /** The first slice of a ranked list ranks before every later one. */
  lemma RankedHeadBounds(s: seq<Entry>, labels: seq<string>)
    requires s != [] && RankedByFirstAppearance(s, labels)
    ensures forall e | e in s[1..] :: Rank(labels, s[0].name) < Rank(labels, e.name)
  {
    forall e | e in s[1..]
      ensures Rank(labels, s[0].name) < Rank(labels, e.name)
    {
      var k :| 0 <= k < |s[1..]| && s[1..][k] == e;
      assert e == s[k + 1];
    }
  }

  /** A slice that ranks before everything in a ranked list can go in front of it. */
  lemma RankedCons(e: Entry, rest: seq<Entry>, labels: seq<string>)
    requires RankedByFirstAppearance(rest, labels)
    requires forall f | f in rest :: Rank(labels, e.name) < Rank(labels, f.name)
    ensures RankedByFirstAppearance([e] + rest, labels)
  {
    var w := [e] + rest;
    forall i, j | 0 <= i < j < |w|
      ensures Rank(labels, w[i].name) < Rank(labels, w[j].name)
    {
      assert w[j] == rest[j - 1];
      if i > 0 {
        assert w[i] == rest[i - 1];
      }
    }
  }

  lemma RankedTail(s: seq<Entry>, labels: seq<string>)
    requires s != [] && RankedByFirstAppearance(s, labels)
    ensures RankedByFirstAppearance(s[1..], labels)
  {
    var t := s[1..];
    forall a, b | 0 <= a < b < |t|
      ensures Rank(labels, t[a].name) < Rank(labels, t[b].name)
    {
      assert t[a] == s[a + 1] && t[b] == s[b + 1];
    }
  }

  lemma {:induction false} TiesFollowRank(s: seq<Entry>, labels: seq<string>, v: nat, i: nat, j: nat)
    requires RankedByFirstAppearance(WithValue(s, v), labels)
    requires i < j < |s| && s[i].value == v && s[j].value == v
    ensures Rank(labels, s[i].name) < Rank(labels, s[j].name)
  {
    var w, rest := WithValue(s, v), WithValue(s[1..], v);
    assert s[1..][j - 1] == s[j];
    if i == 0 {
      assert w == [s[0]] + rest;
      WithValueContains(s[1..], v, j - 1);
      var m :| 0 <= m < |rest| && rest[m] == s[j];
      assert w[0] == s[0] && w[m + 1] == s[j];
    } else {
      if s[0].value == v {
        assert w == [s[0]] + rest;
        RankedTail(w, labels);
        assert w[1..] == rest;
      } else {
        assert w == rest;
      }
      assert s[1..][i - 1] == s[i];
      TiesFollowRank(s[1..], labels, v, i - 1, j - 1);
    }
  }

  lemma {:induction false} WithValueContains(s: seq<Entry>, v: nat, j: nat)
    requires j < |s| && s[j].value == v
    ensures s[j] in WithValue(s, v)
  {
    if j > 0 {
      WithValueContains(s[1..], v, j - 1);
    }
  }

  /**
    The slices are in non-increasing order of value, and slices of equal
    value keep the order in which their labels first appeared.
   */
  lemma ChartDataOrder(games: seq<string>)
    ensures NonIncreasing(ChartData(games))
    ensures forall i, j :: 0 <= i < j < |ChartData(games)| && ChartData(games)[i].value == ChartData(games)[j].value ==>
      && ChartData(games)[i].name in AllLabels(games) && ChartData(games)[j].name in AllLabels(games)
      && FirstIndex(AllLabels(games), ChartData(games)[i].name) < FirstIndex(AllLabels(games), ChartData(games)[j].name)
  {
    var labels := AllLabels(games);
    var d := Distinct(labels);
    var t := Tally(d, labels);
    var cd := ChartData(games);
    DistinctFirstAppearance(labels);
    assert RankedByFirstAppearance(t, labels) by {
      forall i, j | 0 <= i < j < |t|
        ensures Rank(labels, t[i].name) < Rank(labels, t[j].name)
      {
        assert t[i].name == d[i] && t[j].name == d[j];
      }
    }
    forall i, j | 0 <= i < j < |cd| && cd[i].value == cd[j].value
      ensures cd[i].name in labels && cd[j].name in labels && FirstIndex(labels, cd[i].name) < FirstIndex(labels, cd[j].name)
    {
      ChartDataLabels(games);
      assert cd[i].name in Names(cd) && cd[j].name in Names(cd) by {
        assert Names(cd)[i] == cd[i].name && Names(cd)[j] == cd[j].name;
      }
      var v := cd[i].value;
      RankedWithValue(t, labels, v);
      TiesFollowRank(cd, labels, v, i, j);
    }
  }
}
