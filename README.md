# mongoHeadlines: scrape, save and annotate, modelled in Dafny

mongoHeadlines is a small Express server (`server.js`) that scrapes the
article blocks of a news front page into a MongoDB collection and serves
them as two listings (all articles, saved articles), with a route that
toggles an article's saved state and a route that attaches a note to an
article. Almost all of it is library plumbing. This project models the
logic the file itself decides:

- **Candidate records** (`Text`, `Extract`, `Scrape`): for each
  `<article>` block, the texts of its `h2`, `a`, `h3` and `p.summary`
  descendants are trimmed, and the record `{ link, title, summary }` is
  built by successive assignments. A non-empty anchor text wins the title.
  Otherwise the `h3` text is taken, even when it is empty. The `h2` text is
  assigned twice and then always overwritten, so it never decides the
  title. `summary` is set only when its trimmed text is non-empty. The
  scrape loop yields one record per block, in document order, and drops
  none.
- **The article table** (`Articles`): a `Store` class whose fields are a
  map from id to `Article` and a map from id to note body. `Save` is the
  two-state save toggle. It flips `issaved`, sets the matching `status`
  label ("Saved" / "Save Article") and picks the redirect ("/saved" / "/"),
  and nothing else changes. `AttachNote` stores a new note and points the
  article's `note` at it. `NoteOf` resolves that reference. The store's
  invariant says that every label matches its flag and every note reference
  resolves.
- **Listings** (`Listing`): the database's sorted query answer is an input,
  characterised by `IsQueryResult`: exactly the selected documents, once
  each, newest `created` first. `GET /` and `GET /saved` render the
  placeholder message exactly when the selection is empty.

The title rule is modelled as the code behaves. Reading lines 78-83 of
`server.js` suggests that a block with an `h2` and an `h3` but no anchor
text would keep the `h2` text. It does not: line 87 stores the `h3` text
(`Extract.H3BeatsH2WithoutAnchor`). A block with only an `h2` gets an empty
title (`Extract.H2OnlyGivesEmptyTitle`).

Files: `wrappers.dfy` (Option), `text.dfy`, `extract.dfy`, `scrape.dfy`,
`articles.dfy`, `listing.dfy`.

## Model

| member | source | states |
|---|---|---|
| `Text.Trim` | server.js:58-76 | The result is the string with its leading and trailing ECMAScript white space and line terminators removed. It is empty exactly when the input is all white space. |
| `Text.TrimUnique` | server.js:58-76 | Trimming has exactly one answer, so `Trim` agrees with the reference definition `IsTrimOf`. |
| `Text.TrimIdempotent` | server.js:58-76 | Trimming a trimmed string changes nothing. |
| `Extract.Resolve` | server.js:78-91 | A non-empty `title2` is the title. An empty `title2` gives `title3`, even when `title3` is empty. `link` is the anchor's href. `summary` is present exactly when the trimmed summary is non-empty, and then equals it. |
| `Extract.CandidateRule` | server.js:58-91 | The candidate of a block (`CandidateOf`) follows the same rule, stated on the raw block texts. The title is the trimmed anchor text when that text has a non-space character, and the trimmed `h3` text otherwise. `link` is the href, possibly absent. `summary` is present exactly when the summary text has a non-space character. |
| `Extract.BuildCandidate` | server.js:55-91 | The successive assignments to `result`, with the title assigned up to three times, produce exactly `CandidateOf` of the block. |
| `Extract.CandidateIgnoresH2` | server.js:78-87 | Changing only the `h2` text never changes the stored record. |
| `Extract.TitleFromH2OnlyByCoincidence` | server.js:78-87 | If the title equals the trimmed `h2` text, that text also equals the trimmed anchor or `h3` text. |
| `Extract.H3BeatsH2WithoutAnchor` | server.js:78-87 | `h2` "A", no anchor text, `h3` "C" gives title "C", no link and no summary. |
| `Extract.H2OnlyGivesEmptyTitle` | server.js:78-87 | With no anchor text and no `h3` text, the title is empty, whatever the `h2` says. |
| `Extract.ScrapeExample` | server.js:58-91 | The block `<h2>A</h2><a href="/x">B</a><p class="summary">S</p>` yields title "B", link "/x", summary "S". |
| `Scrape.ScrapeBlocks` | server.js:53-104 | One candidate per matched block, in document order. The i-th candidate is `CandidateOf` the i-th block, and none is dropped. |
| `Articles.NewArticle` | server.js:95 | A created article carries the candidate's title, link and summary. It is not saved, its label matches, it has no note, and it has the given `created`. |
| `Articles.Toggle` | server.js:142-150 | A saved article becomes unsaved with "Save Article" and redirect "/". An unsaved one becomes saved with "Saved" and redirect "/saved". Every other field is unchanged. |
| `Articles.ToggleTwice` | server.js:142-150 | Two toggles restore the article if and only if its label matched its flag beforehand. |
| `Articles.AttachTo` | server.js:159 | `note` becomes the new note id, and every other field is unchanged. |
| `Articles.Store.Create` | server.js:95 | Stores `NewArticle` under an id not used before. Other articles and the notes are unchanged. The invariant is kept. |
| `Articles.Store.Find` | server.js:134-138 | The stored record for a known id, nothing for an unknown one. |
| `Articles.Store.Save` | server.js:140-153 | For a known id, only that article changes, to its `Toggle`, and the redirect is `Toggle`'s. An unknown id changes nothing. Notes are unchanged. The invariant (every label matches its flag) is kept. |
| `Articles.Store.AttachNote` | server.js:155-166 | The note is stored under a fresh id. A known article's `note` is set to that id with nothing else changed, and that article is the answer. Afterwards `NoteOf` the article is the submitted body. Other articles are unchanged. |
| `Articles.Store.NoteOf` | server.js:168-173 | An unknown article gives nothing. An article without a note gives no body. An article whose note reference resolves gives the full note body. |
| `Articles.SaveTwice` | server.js:140-153 | Two saves in a row leave the whole table and the notes as they were. |
| `Articles.CreateThenFind` | server.js:95 | A created article is found again with the candidate's title, link and summary. |
| `Listing.IndexRoute` | server.js:112-121 | With the query answer for `{}`, the page is the placeholder "There's nothing scraped yet. …" if and only if the table is empty. Otherwise it is the index template with every stored article, newest first. |
| `Listing.SavedRoute` | server.js:123-132 | With the query answer for `{ issaved: true }`, the page is the placeholder "You have not saved any articles yet. …" if and only if no article is saved. Otherwise it is the saved template. Every listed article is saved, and every saved article is listed. |
| `Listing.QueryResultExists` | server.js:113 | For every table and filter some answer satisfies `IsQueryResult`: selected, distinct, complete and sorted by `created` descending. |

## Left out

- Fetching the page with axios (server.js:48): network I/O.
- HTML parsing with cheerio (server.js:50, 58-76): a foreign library. Its results for one block are the input `Extract.Block`. `.text()` concatenates the texts of all matching descendants, and `.attr("href")` reads the first anchor. The model takes what they return as given.
- The MongoDB connection and query execution (server.js:36-41, 113, 124, 135, 141, 143, 148, 159, 170). The store is an in-memory map. Ids are naturals handed out in order instead of ObjectIds. The sorted query answer is an input described by `Listing.IsQueryResult`.
- Listing.IsQueryResult: documents with equal `created` may come in any order, as the database does not fix it.
- Schema defaults: `./models` is not part of this model. `Articles.NewArticle` uses `issaved` false, status "Save Article" and no note, and takes `created` as a parameter.
- Express middleware, static serving, the handlebars engine, rendering and `app.listen` (server.js:20-33, 177-179). A rendered page is the `Listing.Page` value naming the template and its data.
- The fire-and-forget creates in `/scrape`, the `res.json(err)` on a failed create and the double `res.send`/`res.redirect` (server.js:95-108). These concern asynchronous completion and the response lifecycle. `Articles.Store.Create` models one successful create.
- Articles.Store.AttachNote: the source calls `db.Note.save` instead of `note.save` (server.js:156-157) and throws on store errors (server.js:158, 160). The model follows the evidently intended path: the note is saved, then attached.
- Articles.Store.Save: for an unknown id the source reads `issaved` of a null document and the request dies with an uncaught exception (server.js:142). The model returns no redirect and changes nothing.
- Articles.Store.NoteOf: for an unknown id the source reads `note` of a null document (server.js:171) and fails. The model returns None.
- The error arguments of the query callbacks (server.js:113, 124, 135, 141) are ignored by the source and not modelled.
- The read-then-write race of concurrent saves on one article (server.js:141-148): the model is sequential.
- Text.Trim: JavaScript strings are UTF-16. The model's characters are Unicode scalar values, so lone surrogates are not represented.
