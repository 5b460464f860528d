# Album hosting service: a Dafny model of its core

The service stores anonymous image albums. A user posts a title and a
comma-separated list of image URLs, or a link to an existing imgur album. The
service stores the album, returns a shareable 8-symbol token and a secret
16-symbol deletion token, and later renders the album by its token.

This project models three pieces of sequential logic in that service.

- **The URL gate and the album handlers** (`src/handlers/album.rs`, module
  `AlbumHandlers`).
  - `validate_url` is an ordered chain of checks: parse, domain present,
    lower-cased domain allowed, can be a base, scheme in http/https/ftp.
  - `new` creates the album and then validates the URL list in order.
  - `import` takes an imgur album link and fetches its image links.
  - `get` and `head` look an album up by its token.
  - `patch` is guarded by the `x-api-key` header.
- **The album/image store** (`src/models.rs`, module `Models`). The two
  tables of `src/schema.rs` are sequences of rows, and every statement is a
  function from the tables before to the tables after. Token generation is
  in module `Tokens`.
- **The `x-api-key` request guard** (`src/deletion_token.rs`, module
  `DeletionToken`).

The supporting modules are small:

- `Wrappers` holds `Option` and `Result`.
- `Http` holds the status codes and Rocket's `Custom` responder.
- `Text` holds `str::split`, ASCII lower-casing and UTF-8 byte length.
- `Url` holds the fields of a parsed `url::Url` that the handlers read.

Randomness, the URL parser and the remote album fetch are parameters:

- `Tokens.GenerateTokenPair` takes a sequence of random draws.
- The handlers take the pair of tokens that `generate_token_pair` returned.
  `Tokens` proves that the possible pairs are exactly the pairs of
  repetition-free alphanumeric strings of lengths 8 and 16.
- The handlers take the URL parser as a function from text to
  `Option<Url>`, and `import` takes the fetch as a function from album hash
  to `Result<seq<string>, string>`.
- The allow-list is a `set<string>`.

## Model

| member | source | states |
|---|---|---|
| `AlbumHandlers.ValidateUrl` | src/handlers/album.rs:216-257 | A URL is accepted exactly when it fails none of the five checks. If it is accepted, the parsed URL is returned unchanged. If it is refused, the answer is 400 and names a check that fails. No check that comes earlier in the code's order also fails. |
| `Url.DomainOf` | src/handlers/album.rs:221-235 | `url.domain()` is present exactly when the host is a domain name, and it is then that name. A URL with no host or an IP-address host has none. |
| `Url.PathSegments` | src/handlers/album.rs:165-173 | `url.path_segments()` is absent exactly when the URL cannot be a base. Otherwise it is the URL's segments. |
| `Text.AsciiLower` | src/handlers/album.rs:223 | `to_lowercase` keeps the length. Each character is lower-cased on its own: ASCII capitals become small letters and every other character is unchanged. |
| `AlbumHandlers.IpHostRejected` | src/handlers/album.rs:221-235 | A URL whose host is an IP address has no domain. It is refused with the no-domain error, whatever the allow-list holds. |
| `AlbumHandlers.DomainCaseIgnored` | src/handlers/album.rs:221-229 | Two URLs that differ only in the ASCII case of their domain are either both accepted or both refused. |
| `AlbumHandlers.BaseCheckNeverDecides` | src/handlers/album.rs:221-243 | For a parser that never marks a URL with a host as "cannot be a base", as the `url` crate does, `validate_url` never refuses with the not-a-base error. The domain check has already refused every URL without a host. |
| `AlbumHandlers.ValidateImage` | src/handlers/album.rs:211-214 | `validate_image` accepts every URL. |
| `AlbumHandlers.NormaliseTitle` | src/handlers/album.rs:87-91 | An empty title becomes no title. A non-empty title is kept unchanged. Reading an absent title back as "" gives the original form field. |
| `AlbumHandlers.New` | src/handlers/album.rs:71-117 | The album row is always inserted, before any URL is looked at. The URLs handed to the store are, in order, the serialisations of a prefix of the comma-split pieces that all pass `validate_url`. The answer is 201 with `Location: /a/<token>` exactly when every piece passes. Otherwise it is the error of the first piece that fails, and only the pieces before it were handed to the store. |
| `AlbumHandlers.Import` | src/handlers/album.rs:132-209 | An unparseable link, a domain other than exactly `imgur.com`, or a cannot-be-a-base link gives 400 with no album created. So does a failed fetch of the second path segment, with the images-unavailable error. Otherwise the album is inserted. The fetched links that parse are handed to the store in order until the first that does not parse, which gives 400. |
| `AlbumHandlers.Get` | src/handlers/album.rs:25-47 | The answer is 404 with body "Could not find album" exactly when no album has the token. Otherwise the page shows the title of an album with that token, and that album's image URLs. |
| `AlbumHandlers.Head` | src/handlers/album.rs:49-58 | The answer is 404 with an empty body exactly when no album has the token. |
| `AlbumHandlers.Patch` | src/handlers/album.rs:119-124 | The answer is 501 exactly when the request carries one valid `x-api-key`. Every other request gets 400 from the guard. |
| `AlbumHandlers.CreatedAlbumIsFound` | src/handlers/album.rs:25-58 | After `Album::new`, both `get` and `head` find the new album by its token. |
| `Text.Split` | src/handlers/album.rs:98 | `split(',')` always yields at least one piece. No piece contains a comma. Joining the pieces with commas gives back the input. |
| `Text.SplitJoin` | src/handlers/album.rs:98 | Splitting undoes joining whenever no piece contains the separator. |
| `Text.Utf8Length` | src/deletion_token.rs:5 | `str::len` counts UTF-8 bytes. A string of n characters has between n and 4n bytes. |
| `Text.Utf8LengthAscii` | src/deletion_token.rs:4-6 | The byte length equals the character count exactly when the string is ASCII. |
| `Tokens.AlphabetFacts` | src/models.rs:13-15 | The alphabet literal has 62 symbols. They are pairwise distinct, and they are exactly the ASCII letters and digits. |
| `Tokens.ChooseMultiple` | src/models.rs:17-24 | `choose_multiple` returns min(amount, pool size) elements. All of them come from the pool. There is no repetition when the pool has none. |
| `Tokens.ChooseMultipleReaches` | src/models.rs:17-24 | Every repetition-free selection from a repetition-free pool is a possible result of `choose_multiple`. |
| `Tokens.GenerateTokenPair` | src/models.rs:9-26 | The first token has 8 symbols and the second 16. Every symbol is a letter or digit, and no symbol repeats within a token. |
| `Tokens.EveryTokenPairPossible` | src/models.rs:9-26 | Conversely, any two repetition-free alphanumeric strings of lengths 8 and 16 are a possible result. |
| `DeletionToken.IsValid` | src/deletion_token.rs:4-6 | A valid key has between 4 and 16 characters, because validity counts bytes. An ASCII key is valid exactly when it has 16 characters. |
| `DeletionToken.FromRequest` | src/deletion_token.rs:21-33 | Zero headers give Missing. One header of 16 bytes gives Success, carrying that value unchanged. One header of another length gives Invalid. Two or more headers give BadCount. Every failure carries 400. |
| `DeletionToken.GeneratedTokensClassified` | src/deletion_token.rs:4-6 | Every generated deletion token passes `is_valid`. No generated public token does. |
| `Models.NewAlbum` | src/models.rs:39-52 | `Album::new` appends exactly one album row, carrying the generated tokens and the given title. The image table is unchanged. The new id is fresh, and id validity is preserved. |
| `Models.ByToken` | src/models.rs:54-56 | `by_token` selects exactly the album rows whose token equals the argument. |
| `Models.ByDeletionToken` | src/models.rs:58-62 | `by_deletion_token` selects exactly the album rows whose deletion token equals the argument. |
| `Models.First` | src/handlers/album.rs:29-31 | `.first().optional()` gives no row exactly when the query is empty. Otherwise it gives one of the query's rows. |
| `Models.NewAlbumIsFound` | src/models.rs:39-62 | After `Album::new`, the new row is found by its token and by its deletion token. If no other album had that token, the row is the only match. |
| `Models.SelectImages` | src/models.rs:68-70 | `select_images` yields exactly the image rows whose `album_id` is the album's id. |
| `Models.SelectCount` | src/models.rs:68-70 | `select_images` yields as many rows as the album has rows in the table. |
| `Models.SelectUrlCount` | src/models.rs:68-77 | Each URL occurs among the selected URLs as often as it occurs among the album's rows. |
| `Models.ImageCount` | src/models.rs:86-88 | `image_count` equals the number of image rows whose `album_id` is the album's id. |
| `Models.GetImageUrls` | src/models.rs:72-77 | `get_image_urls` returns `image_count` URLs. As a multiset, they are exactly the URLs of the album's rows. |
| `Models.AddImage` | src/models.rs:114-127 | `add_image`/`Image::new` appends exactly one image row, with `album_id` equal to the album's id and the given URL and index. The album table is unchanged, and id validity is preserved. |
| `Models.AddImageCounts` | src/models.rs:64-66 | Adding an image raises this album's `image_count` by one. It leaves every other album's count unchanged. |
| `Models.IncreaseIndex` | src/models.rs:79-84 | Every row of the album with index ≥ start gets index + 1. Every other row, the album table and the row count are unchanged. The statement is refused as a whole, with nothing changed, exactly when some shifted index would leave `int4`. |
| `Models.IncreaseIndexKeepsOrder` | src/models.rs:79-84 | If the album's indices were pairwise distinct, they stay distinct, and no row of the album is left at `start`. Every album's count and id validity are preserved. |
| `Models.ShiftThenAddAt` | src/models.rs:64-84 | Shifting at `start` and then adding at `start` keeps the album's indices distinct and raises the count by one. The new row is the only row of the album at `start`. |

## Left out

- Rocket routing, form decoding (the `FormDataError` → 400 branches), templates, catchers and static files. The forms arrive already decoded.
- Every database failure that the handlers map to 500, and every other Diesel/Postgres behaviour beyond filtering, inserting and updating rows. The store is total, with one exception: `increase_index` overflowing `int4`.
- Overflow of the `serial` id sequences. Ids are unbounded integers.
- Transactions, locking, and concurrent shift-and-insert. The code has none, and the model is sequential.
- The network client of `src/imgur.rs`. It is the `fetch` parameter; the empty client id the handler passes is not modelled.
- Config loading (`src/config.rs`) and start-up (`src/main.rs`). The allow-list is a parameter.
- The grammar of the `url` crate. Only scheme, host, cannot-be-a-base, path segments and serialisation are modelled.
- Text.AsciiLower: `to_lowercase` is modelled on ASCII letters only. The domain check runs before the scheme check, so it sees every scheme. The parser converts the domain of an http, https or ftp URL to ASCII (punycode). It percent-encodes the host of any other scheme. Either way the domain is ASCII before it is lower-cased.
- AlbumHandlers.Import: on an `imgur.com` link that can be a base but has fewer than two path segments (`https://imgur.com/abc`), `path_segments().nth(1).unwrap()` panics (album.rs:174). The model has no outcome for that panic. Its precondition `HasAlbumHash` excludes such links.
- The parser is a parameter, so the model's `Url` may have a host and also be unable to be a base. The `url` crate never produces such a URL. So, with the real parser, the not-a-base refusal in `validate_url` (album.rs:238-243) and in `import` (album.rs:165-173) cannot happen. `AlbumHandlers.BaseCheckNeverDecides` states the first of these.
- Real randomness. `Tokens.ChooseMultiple` reduces each draw modulo the remaining pool, a partial Fisher–Yates shuffle. This is not `rand`'s own sampling algorithm, but it has the same set of possible results; `Tokens.ChooseMultipleReaches` proves that. Probabilities are not modelled.
- Error message texts. The handlers format the URL into the message; only the kind of rejection and the status are modelled.
- `edit` (a `todo!()`), `Image::by_token` and `Image::by_deletion_token`. No handler uses the two `Image` queries.
- The index argument of `add_image` in the handlers. `new` and `import` call `add_image(conn, url)` with two arguments, while `Album::add_image` takes three. So the handlers' effect is modelled as the ordered list of URLs handed to the store (`Outcome.handed`). Index facts are stated only for the store operations.
- Models.First: without `ORDER BY`, `.first()` may return any matching row. The model returns the first in storage order, but its contract promises only that the row is one of the query's rows.
- Models.GetImageUrls: the model returns storage order, but the contract promises only the multiset, as the query has no `ORDER BY`.

## Behaviour of the code worth knowing

- `new` inserts the album before it validates any URL (album.rs:93-99). A refused URL therefore still leaves the album, and every image before the refused URL, in the store. `AlbumHandlers.New` states this.
- `import` checks only that each fetched link parses (album.rs:188-191). The links are not checked against the allow-list.
