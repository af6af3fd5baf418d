/**
 * The video-game catalog table: one `Game` per row, the multi-valued `genres`
 * column in its three shapes (text, list after splitting, scalar after explode),
 * the explode operation and the two kinds of genre filter.
 */
module Games {
  import opened Wrappers
  import opened Tables
  import opened Text

  /** Dropdown value that selects the whole table. */
  const AllGames: string := "All Games"

  /**
   * The `genres` cell. `Raw` is the text read from the file (None: NaN or not a
   * string), `Listed` the token list after splitting, `Single` one token after
   * `explode` (None: the NaN that exploding an empty list produces).
   */
  datatype GenreCell = Raw(text: Option<string>) | Listed(tags: seq<string>) | Single(tag: Option<string>)

  /** One catalog row; counters are the `added_status_*` columns (None: NaN). */
  datatype Game = Game(
    name: Option<string>,
    year: Option<int>,
    genres: GenreCell,
    platforms: Option<string>,
    esrbRating: Option<string>,
    metacritic: Option<real>,
    rating: Option<real>,
    playtime: Option<real>,
    yet: Option<nat>,
    owned: Option<nat>,
    beaten: Option<nat>,
    toplay: Option<nat>,
    dropped: Option<nat>,
    playing: Option<nat>)

  /** The genre cell of a catalog row. */
  function GenresOf(g: Game): GenreCell { g.genres }

  /**
   * The genre split applied to one cell: text is split on `||`; NaN and non-text
   * values become the empty list. A cell read from the CSV file is never a list;
   * for a list of two or more elements the source's `pd.notna(x) and ...` would
   * raise, so the empty list given for `Listed` cells is an arbitrary choice.
   */
  function SplitGenres(c: GenreCell): (r: GenreCell)
    ensures r.Listed?
    ensures c.Raw? && c.text.Some? ==> |r.tags| >= 1 && Join(r.tags) == c.text.value
    ensures c.Single? && c.tag.Some? ==> |r.tags| >= 1 && Join(r.tags) == c.tag.value
    ensures c.Listed? || c == Raw(None) || c == Single(None) ==> r.tags == []
  {
    match c
    case Raw(t) => Listed(SplitField(t))
    case Single(t) => Listed(SplitField(t))
    case Listed(_) => Listed([])
  }

  ghost predicate AllListed(df: seq<Game>) {
    forall i :: 0 <= i < |df| ==> df[i].genres.Listed?
  }

  /** The genre-column rewrite at load time: every cell becomes a list, no other column changes. */
  function SplitGenreColumn(df: seq<Game>): (r: seq<Game>)
    ensures |r| == |df| && AllListed(r)
    ensures forall i :: 0 <= i < |df| ==> r[i].(genres := df[i].genres) == df[i]
    ensures forall i :: 0 <= i < |df| && df[i].genres.Raw? && df[i].genres.text.Some? ==>
              Join(r[i].genres.tags) == df[i].genres.text.value
    ensures forall i :: 0 <= i < |df| && df[i].genres == Raw(None) ==> r[i].genres == Listed([])
  {
    seq(|df|, i requires 0 <= i < |df| => df[i].(genres := SplitGenres(df[i].genres)))
  }

  /** The rows `explode('genres')` makes of a list of tags, in tag order. */
  function Tagged(g: Game, tags: seq<string>): (r: seq<Game>)
    ensures |r| == |tags|
    ensures forall i :: 0 <= i < |r| ==> r[i] == g.(genres := Single(Some(tags[i])))
  {
    if tags == [] then [] else [g.(genres := Single(Some(tags[0])))] + Tagged(g, tags[1..])
  }

  /**
   * `explode('genres')` of one row: one row per list element (duplicates included),
   * one row with a missing genre for an empty list, and a scalar cell kept as it is.
   */
  function ExplodeOne(g: Game): (r: seq<Game>)
    ensures |r| >= 1
    ensures forall i :: 0 <= i < |r| ==> r[i].genres.Single? && r[i].(genres := g.genres) == g
    ensures g.genres == Listed([]) ==> r == [g.(genres := Single(None))]
    ensures g.genres.Listed? && |g.genres.tags| > 0 ==>
              |r| == |g.genres.tags| &&
              forall i :: 0 <= i < |r| ==> r[i].genres.tag == Some(g.genres.tags[i])
  {
    match g.genres
    case Listed(tags) => if tags == [] then [g.(genres := Single(None))] else Tagged(g, tags)
    case Raw(t) => [g.(genres := Single(t))]
    case Single(_) => [g]
  }

  /** `explode('genres')` of a whole table, row blocks in table order. */
  function Explode(df: seq<Game>): (r: seq<Game>)
    ensures |r| >= |df|
    ensures forall x :: x in r ==> x.genres.Single?
  {
    if df == [] then [] else ExplodeOne(df[0]) + Explode(df[1..])
  }

  /** Explode works row by row: it distributes over concatenation of tables. */
  lemma {:induction false} ExplodeAppend(a: seq<Game>, b: seq<Game>)
    ensures Explode(a + b) == Explode(a) + Explode(b)
  {
    if a == [] {
      assert a + b == b;
    } else {
      assert (a + b)[1..] == a[1..] + b;
      ExplodeAppend(a[1..], b);
    }
  }

  /** List-table match: `sel in x if isinstance(x, list) else False` (exact tokens, case-sensitive). */
  predicate ListHas(c: GenreCell, sel: string) {
    c.Listed? && sel in c.tags
  }

  /** Exploded-table match: `genres == sel`. */
  predicate TagIs(c: GenreCell, sel: string) {
    c == Single(Some(sel))
  }

  /** The key `groupby('genres')` and `value_counts()` see in an exploded table. */
  function TagOf(c: GenreCell): Option<string> {
    if c.Single? then c.tag else None
  }

  /**
   * Genre filter on an unexploded table: the sentinel returns the table itself;
   * any other selector returns, in order, exactly the rows whose genre list holds it.
   */
  function FilterListed<R(!new)>(rows: seq<R>, sel: string, cell: R -> GenreCell): (r: seq<R>)
    ensures sel == AllGames ==> r == rows
    ensures sel != AllGames ==> forall x :: x in r <==> x in rows && ListHas(cell(x), sel)
  {
    if sel == AllGames then rows else Select(rows, x => ListHas(cell(x), sel))
  }

  /** The filter keeps every copy of a matching row and no copy of any other. */
  lemma FilterListedCount<R(!new)>(rows: seq<R>, sel: string, cell: R -> GenreCell)
    requires sel != AllGames
    ensures forall x :: multiset(FilterListed(rows, sel, cell))[x] == if ListHas(cell(x), sel) then multiset(rows)[x] else 0
  {
    SelectCount(rows, x => ListHas(cell(x), sel));
  }

  /** Filtering keeps the order of the rows: it distributes over concatenation. */
  lemma FilterListedAppend<R(!new)>(a: seq<R>, b: seq<R>, sel: string, cell: R -> GenreCell)
    ensures FilterListed(a + b, sel, cell) == FilterListed(a, sel, cell) + FilterListed(b, sel, cell)
  {
    if sel != AllGames {
      SelectAppend(a, b, x => ListHas(cell(x), sel));
    }
  }

  /**
   * Genre filter on an exploded table: the sentinel returns the table itself; any
   * other selector returns, in order, exactly the rows whose single genre equals it.
   */
  function FilterExploded<R(!new)>(rows: seq<R>, sel: string, cell: R -> GenreCell): (r: seq<R>)
    ensures sel == AllGames ==> r == rows
    ensures sel != AllGames ==> forall x :: x in r <==> x in rows && TagIs(cell(x), sel)
  {
    if sel == AllGames then rows else Select(rows, x => TagIs(cell(x), sel))
  }

  /** The filter keeps every copy of a matching row and no copy of any other. */
  lemma FilterExplodedCount<R(!new)>(rows: seq<R>, sel: string, cell: R -> GenreCell)
    requires sel != AllGames
    ensures forall x :: multiset(FilterExploded(rows, sel, cell))[x] == if TagIs(cell(x), sel) then multiset(rows)[x] else 0
  {
    SelectCount(rows, x => TagIs(cell(x), sel));
  }

  lemma FilterExplodedAppend<R(!new)>(a: seq<R>, b: seq<R>, sel: string, cell: R -> GenreCell)
    ensures FilterExploded(a + b, sel, cell) == FilterExploded(a, sel, cell) + FilterExploded(b, sel, cell)
  {
    if sel != AllGames {
      SelectAppend(a, b, x => TagIs(cell(x), sel));
    }
  }

  /** How many times `a` occurs in a tag list. */
  function Occurrences(tags: seq<string>, a: string): nat
  {
    if tags == [] then 0 else (if tags[0] == a then 1 else 0) + Occurrences(tags[1..], a)
  }

  /** How many exploded rows of a cell carry the genre `a`. */
  function Occ(c: GenreCell, a: string): nat
  {
    match c
    case Listed(tags) => Occurrences(tags, a)
    case Raw(t) => if t == Some(a) then 1 else 0
    case Single(t) => if t == Some(a) then 1 else 0
  }

  lemma {:induction false} OccurrencesPositive(tags: seq<string>, a: string)
    ensures Occurrences(tags, a) > 0 <==> a in tags
  {
    if tags != [] {
      OccurrencesPositive(tags[1..], a);
      assert a in tags <==> tags[0] == a || a in tags[1..];
    }
  }

  /** A genre occurs in a list cell exactly when the list-table filter would select the row. */
  lemma OccPositive(c: GenreCell, a: string)
    requires c.Listed?
    ensures Occ(c, a) > 0 <==> ListHas(c, a)
  {
    OccurrencesPositive(c.tags, a);
  }

  /** A row carrying exactly the genre cell `c`, every other column missing. */
  function Blank(c: GenreCell): Game {
    Game(None, None, c, None, None, None, None, None, None, None, None, None, None, None)
  }

  /** Filtering [["RPG"], ["Action", "RPG"], []] on "RPG" keeps exactly the first two rows. */
  lemma FilterListedExample()
    ensures FilterListed([Blank(Listed(["RPG"])), Blank(Listed(["Action", "RPG"])), Blank(Listed([]))],
                         "RPG", GenresOf)
         == [Blank(Listed(["RPG"])), Blank(Listed(["Action", "RPG"]))]
  {
    var a, b, c := Blank(Listed(["RPG"])), Blank(Listed(["Action", "RPG"])), Blank(Listed([]));
    assert ListHas(a.genres, "RPG") && ListHas(b.genres, "RPG") && !ListHas(c.genres, "RPG");
    assert [a, b, c][1..] == [b, c];
    assert [b, c][1..] == [c];
  }
}
