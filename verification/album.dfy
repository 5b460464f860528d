/** The album request handlers of src/handlers/album.rs: the URL gate
    `validate_url`, album creation (`new`), import, lookup (`get`, `head`)
    and `patch`. The database is a `Models.Db` value; the URL parser and the
    remote album fetch are parameters. */
module AlbumHandlers {
  import opened Wrappers
  import opened Http
  import Text
  import Url
  import Models
  import DeletionToken

  /** Why a request is answered with 400 Bad Request. */
  datatype Rejection =
    | InvalidInput       // the text does not parse as a URL
    | NoDomain           // the URL has no host, or an IP address as host
    | NotAllowed         // the domain is not allowed
    | NotABase           // the URL cannot be a base
    | InvalidScheme      // the scheme is none of http, https, ftp
    | AlbumLinkNotBase   // the import link has no path segments
    | ImagesUnavailable  // the remote album could not be fetched

  /** The schemes `validate_url` accepts. */
  const Schemes: set<string> := {"http", "https", "ftp"}

  // ------------------------------------------------------------ validate_url

  /** Each check of `validate_url` taken on its own: does the input fail it? */
  predicate Fails(check: Rejection, allowed: set<string>, parsed: Option<Url.Url>)
  {
    match check
    case InvalidInput => parsed.None?
    case NoDomain => parsed.Some? && Url.DomainOf(parsed.value).None?
    case NotAllowed =>
      && parsed.Some? && Url.DomainOf(parsed.value).Some?
      && Text.AsciiLower(Url.DomainOf(parsed.value).value) !in allowed
    case NotABase => parsed.Some? && parsed.value.cannotBeABase
    case InvalidScheme => parsed.Some? && parsed.value.scheme !in Schemes
    case _ => false
  }

  /** The position of each check in `validate_url`. */
  function CheckOrder(check: Rejection): nat
  {
    match check
    case InvalidInput => 0
    case NoDomain => 1
    case NotAllowed => 2
    case NotABase => 3
    case InvalidScheme => 4
    case _ => 5
  }

  /** `validate_url`: parse, then require a domain, an allowed lower-cased
      domain, a base URL and a supported scheme. A URL passing every check is
      returned as parsed (`set_scheme("http")` on an http URL changes
      nothing); otherwise the earliest failing check is reported with 400. */
  function ValidateUrl(allowed: set<string>, parse: Url.Parser, raw: string): (r: Result<Url.Url, Custom<Rejection>>)
    ensures r.Success? <==> forall c :: !Fails(c, allowed, parse(raw))
    ensures r.Success? ==> parse(raw) == Some(r.value)
    ensures r.Failure? ==> r.error.status == BadRequest && Fails(r.error.body, allowed, parse(raw))
    ensures r.Failure? ==> forall c :: Fails(c, allowed, parse(raw)) ==> CheckOrder(r.error.body) <= CheckOrder(c)
  {
    match parse(raw)
    case None =>
      assert Fails(InvalidInput, allowed, parse(raw));
      Failure(Custom(BadRequest, InvalidInput))
    case Some(url) =>
      match Url.DomainOf(url)
      case None =>
        assert Fails(NoDomain, allowed, parse(raw));
        Failure(Custom(BadRequest, NoDomain))
      case Some(domain) =>
        if Text.AsciiLower(domain) !in allowed then
          assert Fails(NotAllowed, allowed, parse(raw));
          Failure(Custom(BadRequest, NotAllowed))
        else if url.cannotBeABase then
          assert Fails(NotABase, allowed, parse(raw));
          Failure(Custom(BadRequest, NotABase))
        else if url.scheme == "http" then Success(url)
        else if url.scheme == "https" || url.scheme == "ftp" then Success(url)
        else
          assert Fails(InvalidScheme, allowed, parse(raw));
          Failure(Custom(BadRequest, InvalidScheme))
  }

  /** A URL whose host is an IP address is refused for having no domain,
      whatever the allow-list holds. */
  lemma IpHostRejected(allowed: set<string>, parse: Url.Parser, raw: string)
    requires parse(raw).Some? && parse(raw).value.host.Some?
    requires !parse(raw).value.host.value.Domain?
    ensures ValidateUrl(allowed, parse, raw) == Failure(Custom(BadRequest, NoDomain))
  {
    assert Fails(NoDomain, allowed, parse(raw));
  }

  /** The allow-list is compared after lower-casing: a domain is accepted
      exactly when its lower-cased form is listed, so the check ignores the
      case of ASCII letters. */
  lemma DomainCaseIgnored(allowed: set<string>, parse: Url.Parser, raw: string, raw': string)
    requires parse(raw).Some? && parse(raw').Some?
    requires var (u, u') := (parse(raw).value, parse(raw').value);
      && u.scheme == u'.scheme && u.cannotBeABase == u'.cannotBeABase
      && Url.DomainOf(u).Some? && Url.DomainOf(u').Some?
      && Text.AsciiLower(Url.DomainOf(u).value) == Text.AsciiLower(Url.DomainOf(u').value)
    ensures ValidateUrl(allowed, parse, raw).Success? <==> ValidateUrl(allowed, parse, raw').Success?
  {
    if ValidateUrl(allowed, parse, raw).Success? {
      assert !Fails(NotAllowed, allowed, parse(raw));
      assert !Fails(InvalidScheme, allowed, parse(raw));
    }
    if ValidateUrl(allowed, parse, raw').Success? {
      assert !Fails(NotAllowed, allowed, parse(raw'));
      assert !Fails(InvalidScheme, allowed, parse(raw'));
    }
  }

  /** In the `url` crate a URL with a host can always be a base. For a parser
      keeping that rule, the base check of `validate_url` never decides: a URL
      that passes the domain checks is never refused as "not a base". */
  lemma BaseCheckNeverDecides(allowed: set<string>, parse: Url.Parser, raw: string)
    requires parse(raw).Some? && parse(raw).value.host.Some? ==> !parse(raw).value.cannotBeABase
    ensures ValidateUrl(allowed, parse, raw) != Failure(Custom(BadRequest, NotABase))
  {
  }

  /** `validate_image`: a stub that accepts every URL. */
  predicate ValidateImage(url: Url.Url): (b: bool)
    ensures b
  {
    true
  }

  // ------------------------------------------------------------ forms

  /** The title field of both forms: empty means "no title". */
  function NormaliseTitle(title: string): (r: Option<string>)
    ensures r.None? <==> |title| == 0
    ensures (if r.Some? then r.value else "") == title
  {
    if |title| == 0 then None else Some(title)
  }

  datatype NewAlbumForm = NewAlbumForm(title: string, images: string)
  datatype ImportAlbumForm = ImportAlbumForm(title: string, link: string)

  /** `201 Created` with `Location: /a/<token>`; the body shows the token and
      the deletion token. */
  datatype CreatedAlbum = CreatedAlbum(location: string, token: string, deletionToken: string)

  /** What a creating request leaves behind: the tables, the album row it
      inserted (if any), the urls it handed to `add_image` in order, and the
      response. */
  datatype Outcome = Outcome(
    db: Models.Db,
    album: Option<Models.Album>,
    handed: seq<string>,
    response: Result<CreatedAlbum, Custom<Rejection>>)

  function CreatedFor(album: Models.Album): CreatedAlbum
  {
    CreatedAlbum("/a/" + album.token, album.token, album.deletionToken)
  }

  /** The first `|handed|` pieces all pass `validate_url`, and `handed` holds
      their serialisations in the same order. */
  predicate ValidatedPrefix(allowed: set<string>, parse: Url.Parser, pieces: seq<string>, handed: seq<string>)
  {
    && |handed| <= |pieces|
    && forall j :: 0 <= j < |handed| ==>
         && ValidateUrl(allowed, parse, pieces[j]).Success?
         && handed[j] == ValidateUrl(allowed, parse, pieces[j]).value.serialization
  }

  // ------------------------------------------------------------ new

  /** `new`: normalise the title, insert the album, then split the image list
      on `,` and validate and hand each url to the store in order, stopping at
      the first one `validate_url` refuses. The album (and every url handed
      before the refusal) stays in place when a later url is refused.
      `tokens` is the pair `generate_token_pair` returned. */
  method New(db: Models.Db, allowed: set<string>, parse: Url.Parser, tokens: (string, string), form: NewAlbumForm)
    returns (o: Outcome)
    ensures var (db', album) := Models.NewAlbum(db, NormaliseTitle(form.title), tokens);
      o.db == db' && o.album == Some(album)
    ensures var pieces := Text.Split(form.images, ',');
      && ValidatedPrefix(allowed, parse, pieces, o.handed)
      && (o.response.Success? <==> forall j :: 0 <= j < |pieces| ==> ValidateUrl(allowed, parse, pieces[j]).Success?)
      && (o.response.Success? ==> |o.handed| == |pieces| && o.response.value == CreatedFor(o.album.value))
      && (o.response.Failure? ==>
            && |o.handed| < |pieces|
            && ValidateUrl(allowed, parse, pieces[|o.handed|]).Failure?
            && o.response.error == ValidateUrl(allowed, parse, pieces[|o.handed|]).error)
  {
    var (db', album) := Models.NewAlbum(db, NormaliseTitle(form.title), tokens);
    var pieces := Text.Split(form.images, ',');
    var handed: seq<string> := [];
    var i := 0;
    while i < |pieces|
      invariant i == |handed|
      invariant ValidatedPrefix(allowed, parse, pieces, handed)
    {
      var v := ValidateUrl(allowed, parse, pieces[i]);
      if v.Failure? {
        return Outcome(db', Some(album), handed, Failure(v.error));
      }
      if ValidateImage(v.value) {
        handed := handed + [v.value.serialization];
      }
      i := i + 1;
    }
    return Outcome(db', Some(album), handed, Success(CreatedFor(album)));
  }

  // ------------------------------------------------------------ import

  /** An opaque fetch of a remote album's image links by album hash. */
  type Fetcher = string -> Result<seq<string>, string>

  /** The precondition of `import`: an imgur link that can be a base has at
      least two path segments. On a link with fewer (`https://imgur.com/abc`)
      the handler panics at `path_segments().nth(1).unwrap()`; the model
      does not represent that panic and leaves such links out. */
  predicate HasAlbumHash(parse: Url.Parser, link: string)
  {
    match parse(link)
    case None => true
    case Some(u) => Url.DomainOf(u) == Some("imgur.com") && !u.cannotBeABase ==> |u.segments| >= 2
  }

  /** Each link parses, and `handed` holds the serialisations of the first
      `|handed|` of them in order. */
  predicate ParsedPrefix(parse: Url.Parser, links: seq<string>, handed: seq<string>)
  {
    && |handed| <= |links|
    && forall j :: 0 <= j < |handed| ==>
         parse(links[j]).Some? && handed[j] == parse(links[j]).value.serialization
  }

  /** `import`: parse the link, require the exact domain `imgur.com` and a base
      URL, take the second path segment as the album hash and fetch its image
      links; then insert the album and hand every link that parses to the
      store in order, stopping at the first that does not. The fetched links
      are not checked against the allow-list. */
  method Import(db: Models.Db, parse: Url.Parser, fetch: Fetcher, tokens: (string, string), form: ImportAlbumForm)
    returns (o: Outcome)
    requires HasAlbumHash(parse, form.link)
    ensures parse(form.link).None? ==> o == Outcome(db, None, [], Failure(Custom(BadRequest, InvalidInput)))
    ensures parse(form.link).Some? && Url.DomainOf(parse(form.link).value) != Some("imgur.com")
      ==> o == Outcome(db, None, [], Failure(Custom(BadRequest, NotAllowed)))
    ensures parse(form.link).Some? && Url.DomainOf(parse(form.link).value) == Some("imgur.com")
      && parse(form.link).value.cannotBeABase
      ==> o == Outcome(db, None, [], Failure(Custom(BadRequest, AlbumLinkNotBase)))
    ensures parse(form.link).Some? && Url.DomainOf(parse(form.link).value) == Some("imgur.com")
      && !parse(form.link).value.cannotBeABase
      && fetch(parse(form.link).value.segments[1]).Failure?
      ==> o == Outcome(db, None, [], Failure(Custom(BadRequest, ImagesUnavailable)))
    ensures o.album.None? ==> o.db == db && o.handed == [] && o.response.Failure?
    ensures o.album.Some? <==>
      && parse(form.link).Some?
      && Url.DomainOf(parse(form.link).value) == Some("imgur.com")
      && !parse(form.link).value.cannotBeABase
      && fetch(parse(form.link).value.segments[1]).Success?
    ensures o.album.Some? ==>
      var links := fetch(parse(form.link).value.segments[1]).value;
      && (o.db, o.album.value) == Models.NewAlbum(db, NormaliseTitle(form.title), tokens)
      && ParsedPrefix(parse, links, o.handed)
      && (o.response.Success? ==> |o.handed| == |links| && o.response.value == CreatedFor(o.album.value))
      && (o.response.Failure? ==>
            && |o.handed| < |links| && parse(links[|o.handed|]).None?
            && o.response.error == Custom(BadRequest, InvalidInput))
    ensures o.album.Some? && parse(form.link).Some? ==>
      var links := fetch(parse(form.link).value.segments[1]).value;
      o.response.Success? <==> forall j :: 0 <= j < |links| ==> parse(links[j]).Some?
    ensures o.response.Failure? ==> o.response.error.status == BadRequest
  {
    var title := NormaliseTitle(form.title);
    var parsed := parse(form.link);
    if parsed.None? {
      return Outcome(db, None, [], Failure(Custom(BadRequest, InvalidInput)));
    }
    var url := parsed.value;
    if Url.DomainOf(url) != Some("imgur.com") {
      return Outcome(db, None, [], Failure(Custom(BadRequest, NotAllowed)));
    }
    var segments := Url.PathSegments(url);
    if segments.None? {
      return Outcome(db, None, [], Failure(Custom(BadRequest, AlbumLinkNotBase)));
    }
    var albumHash := segments.value[1];
    var fetched := fetch(albumHash);
    if fetched.Failure? {
      return Outcome(db, None, [], Failure(Custom(BadRequest, ImagesUnavailable)));
    }
    var links := fetched.value;
    var (db', album) := Models.NewAlbum(db, title, tokens);
    var handed: seq<string> := [];
    var i := 0;
    while i < |links|
      invariant i == |handed|
      invariant ParsedPrefix(parse, links, handed)
    {
      var link := parse(links[i]);
      if link.None? {
        return Outcome(db', Some(album), handed, Failure(Custom(BadRequest, InvalidInput)));
      }
      if ValidateImage(link.value) {
        handed := handed + [link.value.serialization];
      }
      i := i + 1;
    }
    return Outcome(db', Some(album), handed, Success(CreatedFor(album)));
  }

  // ------------------------------------------------------------ get, head, patch

  /** What the album page is rendered from. */
  datatype AlbumContext = AlbumContext(title: Option<string>, token: string, images: seq<string>)

  /** `get`: render the first album with this token, or 404 "Could not find album". */
  function Get(db: Models.Db, token: string): (r: Result<AlbumContext, Custom<string>>)
    ensures r.Failure? <==> forall a :: a in db.albums ==> a.token != token
    ensures r.Failure? ==> r.error == Custom(NotFound, "Could not find album")
    ensures r.Success? ==>
      exists a :: a in db.albums && a.token == token
        && r.value == AlbumContext(a.title, token, Models.GetImageUrls(db, a))
  {
    match Models.First(Models.ByToken(db, token))
    case None => Failure(Custom(NotFound, "Could not find album"))
    case Some(album) =>
      assert album in Models.ByToken(db, token);
      Success(AlbumContext(album.title, album.token, Models.GetImageUrls(db, album)))
  }

  /** `head`: 200 with no body when an album has this token, else 404 with no body. */
  function Head(db: Models.Db, token: string): (r: Result<(), Custom<()>>)
    ensures r.Failure? <==> forall a :: a in db.albums ==> a.token != token
    ensures r.Failure? ==> r.error == Custom(NotFound, ())
  {
    match Models.First(Models.ByToken(db, token))
    case None => Failure(Custom(NotFound, ()))
    case Some(_) => Success(())
  }

  /** `patch`: the `x-api-key` guard runs first and answers 400 on failure;
      past it the handler always answers 501 Not Implemented. */
  function Patch(keys: seq<string>): (s: Status)
    ensures s == NotImplemented <==> |keys| == 1 && DeletionToken.IsValid(keys[0])
    ensures s != NotImplemented ==> s == BadRequest
  {
    match DeletionToken.FromRequest(keys)
    case Success(_) => NotImplemented
    case Failure(status, _) => status
  }

  /** The album `new` just created is found again by `get` and `head` under
      its token. */
  lemma CreatedAlbumIsFound(db: Models.Db, title: Option<string>, tokens: (string, string))
    ensures var (db', album) := Models.NewAlbum(db, title, tokens);
      && Get(db', album.token).Success?
      && Head(db', album.token).Success?
  {
    Models.NewAlbumIsFound(db, title, tokens);
  }
}
