/** The `albums` and `images` tables and the queries of src/models.rs. Each
    table is the sequence of its rows in storage order; every statement is a
    function from the tables before to the tables after. */
module Models {
  import opened Wrappers

  /** Postgres `int4`, the type of every `id`, `album_id` and `index` column. */
  const Int4Max: int := 0x7fff_ffff
  type Int4 = x: int | -0x8000_0000 <= x <= 0x7fff_ffff

  /** A row of `albums`. */
  datatype Album = Album(id: int, token: string, deletionToken: string, title: Option<string>)

  /** A row of `images`. */
  datatype Image = Image(
    id: int,
    albumId: int,
    token: string,
    deletionToken: string,
    url: string,
    index: Int4)

  /** Both tables, and the next values their `serial` id columns hand out. */
  datatype Db = Db(albums: seq<Album>, images: seq<Image>, nextAlbumId: int, nextImageId: int)

  /** A statement the database refuses. */
  datatype StoreError = IntegerOutOfRange

  /** Ids are below the next serial value and pairwise distinct in each table. */
  predicate Valid(db: Db)
  {
    && (forall i :: 0 <= i < |db.albums| ==> db.albums[i].id < db.nextAlbumId)
    && (forall i, j :: 0 <= i < j < |db.albums| ==> db.albums[i].id != db.albums[j].id)
    && (forall i :: 0 <= i < |db.images| ==> db.images[i].id < db.nextImageId)
    && (forall i, j :: 0 <= i < j < |db.images| ==> db.images[i].id != db.images[j].id)
  }

  // ---------------------------------------------------------------- albums

  /** `Album::new`: insert one album row carrying `tokens`, the pair
      `generate_token_pair` returned (see `Tokens.GenerateTokenPair`). */
  function NewAlbum(db: Db, title: Option<string>, tokens: (string, string)): (r: (Db, Album))
    ensures r.0.albums == db.albums + [r.1]
    ensures r.0.images == db.images && r.0.nextImageId == db.nextImageId
    ensures r.1.title == title
    ensures r.1.token == tokens.0 && r.1.deletionToken == tokens.1
    ensures Valid(db) ==> Valid(r.0) && forall a :: a in db.albums ==> a.id != r.1.id
  {
    var (token, deletionToken) := tokens;
    var album := Album(db.nextAlbumId, token, deletionToken, title);
    (db.(albums := db.albums + [album], nextAlbumId := db.nextAlbumId + 1), album)
  }

  /** The rows of `albums` that satisfy `keep`, in storage order. */
  function FilterAlbums(albums: seq<Album>, keep: Album -> bool): (r: seq<Album>)
    ensures |r| <= |albums|
    ensures forall a :: a in r <==> a in albums && keep(a)
  {
    if |albums| == 0 then []
    else (if keep(albums[0]) then [albums[0]] else []) + FilterAlbums(albums[1..], keep)
  }

  /** `Album::by_token`. */
  function ByToken(db: Db, token: string): (r: seq<Album>)
    ensures forall a :: a in r <==> a in db.albums && a.token == token
  {
    FilterAlbums(db.albums, (a: Album) => a.token == token)
  }

  /** `Album::by_deletion_token`. */
  function ByDeletionToken(db: Db, deletionToken: string): (r: seq<Album>)
    ensures forall a :: a in r <==> a in db.albums && a.deletionToken == deletionToken
  {
    FilterAlbums(db.albums, (a: Album) => a.deletionToken == deletionToken)
  }

  /** Diesel's `.first().optional()`: a row of the query, if it has any.
      Without `ORDER BY` the database may return any matching row, so only
      membership is promised; the model happens to take the first. */
  function First<T>(rows: seq<T>): (r: Option<T>)
    ensures r.None? <==> |rows| == 0
    ensures r.Some? ==> r.value in rows
  {
    if |rows| == 0 then None else Some(rows[0])
  }

  /** After `Album::new`, looking the new album up by either token finds it. */
  lemma NewAlbumIsFound(db: Db, title: Option<string>, tokens: (string, string))
    ensures var (db', album) := NewAlbum(db, title, tokens);
      && album in ByToken(db', album.token)
      && album in ByDeletionToken(db', album.deletionToken)
      && (ByToken(db, album.token) == [] ==> ByToken(db', album.token) == [album])
  {
    var (db', album) := NewAlbum(db, title, tokens);
    FilterAppend(db.albums, [album], (a: Album) => a.token == album.token);
  }

  lemma {:induction false} FilterAppend(xs: seq<Album>, ys: seq<Album>, keep: Album -> bool)
    ensures FilterAlbums(xs + ys, keep) == FilterAlbums(xs, keep) + FilterAlbums(ys, keep)
  {
    if |xs| > 0 {
      assert (xs + ys)[1..] == xs[1..] + ys;
      FilterAppend(xs[1..], ys, keep);
    } else {
      assert xs + ys == ys;
    }
  }

  // ---------------------------------------------------------------- images

  /** The positions of this album's rows in the `images` table. */
  ghost function RowsOf(images: seq<Image>, albumId: int): set<nat>
  {
    set i: nat | i < |images| && images[i].albumId == albumId
  }

  /** The positions of this album's rows whose url is `url`. */
  ghost function RowsWithUrl(images: seq<Image>, albumId: int, url: string): set<nat>
  {
    set i: nat | i < |images| && images[i].albumId == albumId && images[i].url == url
  }

  /** `select_images` (`Image::belonging_to(self)`), in storage order. */
  function SelectImages(images: seq<Image>, albumId: int): (r: seq<Image>)
    ensures forall x :: x in r <==> x in images && x.albumId == albumId
  {
    if |images| == 0 then []
    else
      var last := images[|images| - 1];
      SelectImages(images[..|images| - 1], albumId) + (if last.albumId == albumId then [last] else [])
  }

  function Urls(rows: seq<Image>): (r: seq<string>)
    ensures |r| == |rows|
  {
    if |rows| == 0 then [] else Urls(rows[..|rows| - 1]) + [rows[|rows| - 1].url]
  }

  /** How the album's row positions in a table relate to those in the table
      without its last row. */
  lemma RowsOfLast(images: seq<Image>, albumId: int)
    requires |images| > 0
    ensures var n := |images| - 1;
      && n !in RowsOf(images[..n], albumId)
      && RowsOf(images, albumId)
         == RowsOf(images[..n], albumId) + (if images[n].albumId == albumId then {n} else {})
  {
    var n := |images| - 1;
    forall i: nat | i < n ensures images[..n][i] == images[i] {}
  }

  /** The same for the album's row positions holding a given url. */
  lemma RowsWithUrlLast(images: seq<Image>, albumId: int, url: string)
    requires |images| > 0
    ensures var n := |images| - 1;
      && n !in RowsWithUrl(images[..n], albumId, url)
      && RowsWithUrl(images, albumId, url)
         == RowsWithUrl(images[..n], albumId, url)
            + (if images[n].albumId == albumId && images[n].url == url then {n} else {})
  {
    var n := |images| - 1;
    forall i: nat | i < n ensures images[..n][i] == images[i] {}
  }

  /** Appending a row appends its url. */
  lemma UrlsSnoc(rows: seq<Image>, last: Image)
    ensures Urls(rows + [last]) == Urls(rows) + [last.url]
  {
    assert (rows + [last])[..|rows|] == rows;
  }

  /** Selecting by album yields as many rows as the album has. */
  lemma {:induction false} SelectCount(images: seq<Image>, albumId: int)
    ensures |SelectImages(images, albumId)| == |RowsOf(images, albumId)|
  {
    if |images| > 0 {
      var n := |images| - 1;
      SelectCount(images[..n], albumId);
      RowsOfLast(images, albumId);
    }
  }

  /** Selecting from a table with one more row adds that row's url to the
      selected urls exactly when the row belongs to the album. */
  lemma SelectUrlsLast(images: seq<Image>, albumId: int, url: string)
    requires |images| > 0
    ensures var n := |images| - 1;
      multiset(Urls(SelectImages(images, albumId)))[url]
        == multiset(Urls(SelectImages(images[..n], albumId)))[url]
           + (if images[n].albumId == albumId && images[n].url == url then 1 else 0)
  {
    var n := |images| - 1;
    var last := images[n];
    var sel := SelectImages(images[..n], albumId);
    if last.albumId == albumId {
      assert SelectImages(images, albumId) == sel + [last];
      UrlsSnoc(sel, last);
      MultisetSnoc(Urls(sel), last.url, url);
    } else {
      assert SelectImages(images, albumId) == sel;
    }
  }

  /** Appending one element adds one occurrence of it. */
  lemma MultisetSnoc(xs: seq<string>, x: string, y: string)
    ensures multiset(xs + [x])[y] == multiset(xs)[y] + (if x == y then 1 else 0)
  {
    assert multiset(xs + [x]) == multiset(xs) + multiset{x};
  }

  /** The number of the album's rows holding `url`, against the table without
      its last row. */
  lemma RowsWithUrlCountLast(images: seq<Image>, albumId: int, url: string)
    requires |images| > 0
    ensures var n := |images| - 1;
      |RowsWithUrl(images, albumId, url)|
        == |RowsWithUrl(images[..n], albumId, url)|
           + (if images[n].albumId == albumId && images[n].url == url then 1 else 0)
  {
    RowsWithUrlLast(images, albumId, url);
  }

  /** Each url occurs among the selected urls as often as among the album's rows. */
  lemma {:induction false} SelectUrlCount(images: seq<Image>, albumId: int, url: string)
    ensures multiset(Urls(SelectImages(images, albumId)))[url] == |RowsWithUrl(images, albumId, url)|
  {
    if |images| > 0 {
      SelectUrlCount(images[..|images| - 1], albumId, url);
      SelectUrlsLast(images, albumId, url);
      RowsWithUrlCountLast(images, albumId, url);
    }
  }

  /** `Album::image_count`: the number of image rows of this album. */
  function ImageCount(db: Db, album: Album): (n: nat)
    ensures n == |RowsOf(db.images, album.id)|
  {
    SelectCount(db.images, album.id);
    |SelectImages(db.images, album.id)|
  }

  /** `Album::get_image_urls`: the urls of this album's rows. No order is
      promised (the query has no `ORDER BY`); the multiset is. */
  function GetImageUrls(db: Db, album: Album): (urls: seq<string>)
    ensures |urls| == ImageCount(db, album)
    ensures forall u :: multiset(urls)[u] == |RowsWithUrl(db.images, album.id, u)|
  {
    var r := Urls(SelectImages(db.images, album.id));
    SelectCount(db.images, album.id);
    forall u ensures multiset(r)[u] == |RowsWithUrl(db.images, album.id, u)| {
      SelectUrlCount(db.images, album.id, u);
    }
    r
  }

  /** `Image::new`, called by `Album::add_image` with `self.id`: insert one
      image row carrying `tokens`, the pair `generate_token_pair` returned. */
  function AddImage(db: Db, album: Album, url: string, index: Int4, tokens: (string, string)): (r: (Db, Image))
    ensures r.0.images == db.images + [r.1]
    ensures r.0.albums == db.albums && r.0.nextAlbumId == db.nextAlbumId
    ensures r.1.albumId == album.id && r.1.url == url && r.1.index == index
    ensures r.1.token == tokens.0 && r.1.deletionToken == tokens.1
    ensures Valid(db) ==> Valid(r.0)
  {
    var (token, deletionToken) := tokens;
    var image := Image(db.nextImageId, album.id, token, deletionToken, url, index);
    (db.(images := db.images + [image], nextImageId := db.nextImageId + 1), image)
  }

  /** Adding an image raises this album's count by one and leaves every other
      album's count alone. */
  lemma AddImageCounts(db: Db, album: Album, url: string, index: Int4, tokens: (string, string), other: Album)
    ensures var db' := AddImage(db, album, url, index, tokens).0;
      && ImageCount(db', album) == ImageCount(db, album) + 1
      && (other.id != album.id ==> ImageCount(db', other) == ImageCount(db, other))
  {
    var db' := AddImage(db, album, url, index, tokens).0;
    var n := |db.images|;
    assert RowsOf(db'.images, album.id) == RowsOf(db.images, album.id) + {n};
    assert n !in RowsOf(db.images, album.id);
    if other.id != album.id {
      assert RowsOf(db'.images, other.id) == RowsOf(db.images, other.id);
    }
  }

  /** The rows `increase_index(start)` moves. */
  predicate Moves(row: Image, albumId: int, start: Int4)
  {
    row.albumId == albumId && row.index >= start
  }

  /** The update would push some index past `int4`. */
  predicate ShiftOverflows(images: seq<Image>, albumId: int, start: Int4)
  {
    exists i | 0 <= i < |images| :: Moves(images[i], albumId, start) && images[i].index == Int4Max
  }

  /** `Album::increase_index`:
      `UPDATE images SET index = index + 1 WHERE album_id = self.id AND index >= start`.
      Postgres runs the statement atomically and refuses it as a whole when
      one new index leaves `int4`. */
  function IncreaseIndex(db: Db, album: Album, start: Int4): (r: Result<Db, StoreError>)
    ensures r.Failure? <==> ShiftOverflows(db.images, album.id, start)
    ensures r.Success? ==>
      && r.value.albums == db.albums
      && r.value.nextAlbumId == db.nextAlbumId && r.value.nextImageId == db.nextImageId
      && |r.value.images| == |db.images|
      && forall i :: 0 <= i < |db.images| ==>
           var (a, b) := (db.images[i], r.value.images[i]);
           && b.id == a.id && b.albumId == a.albumId && b.url == a.url
           && b.token == a.token && b.deletionToken == a.deletionToken
           && (Moves(a, album.id, start) ==> b.index == a.index + 1)
           && (!Moves(a, album.id, start) ==> b == a)
  {
    if ShiftOverflows(db.images, album.id, start) then Failure(IntegerOutOfRange)
    else
      var images := seq(|db.images|, i requires 0 <= i < |db.images| =>
        var row := db.images[i];
        if Moves(row, album.id, start) then row.(index := row.index + 1) else row);
      Success(db.(images := images))
  }

  /** Within one album, no two rows share an index. */
  predicate DistinctIndices(images: seq<Image>, albumId: int)
  {
    forall i, j :: 0 <= i < j < |images| && images[i].albumId == albumId && images[j].albumId == albumId
      ==> images[i].index != images[j].index
  }

  /** `increase_index` keeps the album's indices distinct and frees `start`;
      it keeps every album's row count and the ids valid. */
  lemma IncreaseIndexKeepsOrder(db: Db, album: Album, start: Int4, other: Album)
    requires IncreaseIndex(db, album, start).Success?
    ensures var db' := IncreaseIndex(db, album, start).value;
      && (DistinctIndices(db.images, album.id) ==> DistinctIndices(db'.images, album.id))
      && (forall i :: 0 <= i < |db'.images| && db'.images[i].albumId == album.id ==> db'.images[i].index != start)
      && ImageCount(db', other) == ImageCount(db, other)
      && (Valid(db) ==> Valid(db'))
  {
    var db' := IncreaseIndex(db, album, start).value;
    assert RowsOf(db'.images, other.id) == RowsOf(db.images, other.id);
  }

  /** Shifting at `start` and then adding an image at `start` (the insert-at
      pattern the two statements support) leaves exactly one row of the album
      at `start` and its indices distinct. */
  lemma ShiftThenAddAt(db: Db, album: Album, url: string, start: Int4, tokens: (string, string))
    requires IncreaseIndex(db, album, start).Success?
    requires DistinctIndices(db.images, album.id)
    ensures var db' := AddImage(IncreaseIndex(db, album, start).value, album, url, start, tokens).0;
      && DistinctIndices(db'.images, album.id)
      && ImageCount(db', album) == ImageCount(db, album) + 1
      && (forall i :: 0 <= i < |db'.images| && db'.images[i].albumId == album.id && db'.images[i].index == start
            ==> i == |db.images|)
  {
    var mid := IncreaseIndex(db, album, start).value;
    IncreaseIndexKeepsOrder(db, album, start, album);
    AddImageCounts(mid, album, url, start, tokens, album);
  }
}
