/**
 * The part of the `/scrape` handler that the file itself decides: turning
 * the strings read from one `<article>` block into the record that is
 * handed to the store, and doing so once per block, in document order.
 * The HTML parser is not modelled; what it returns for one block is the
 * input `Block`.
 */
module Extract {
  import opened Wrappers
  import opened Text

  /** What the parser yields for one `<article>` block, before trimming:
      the concatenated text of its `h2`, `a` and `h3` descendants, the
      `href` of its first `a` (absent when there is no anchor or no
      attribute), and the concatenated text of its `p.summary` descendants. */
  datatype Block = Block(
    h2Text: string,
    anchorText: string,
    h3Text: string,
    href: Option<string>,
    summaryText: string)

  /** The five values the handler computes for one block (`title`,
      `title2`, `title3`, `link`, `summary`): trimmed texts and the raw
      `href`. */
  datatype Texts = Texts(
    title: string,
    title2: string,
    title3: string,
    link: Option<string>,
    summary: string)

  /** The `result` object passed to the store; `summary` is a key that is
      present only when set. */
  datatype Candidate = Candidate(title: string, link: Option<string>, summary: Option<string>)

  /** server.js:58-76: every text is trimmed, the `href` is taken as is. */
  function Extracted(b: Block): Texts
  {
    Texts(Trim(b.h2Text), Trim(b.anchorText), Trim(b.h3Text), b.href, Trim(b.summaryText))
  }

  /** The record for one block's values. A non-empty `title2` wins;
      otherwise `title3` is taken, even when it is empty, so `title` never
      decides the result. */
  function Resolve(t: Texts): (c: Candidate)
    ensures t.title2 != [] ==> c.title == t.title2
    ensures t.title2 == [] ==> c.title == t.title3
    ensures c.link == t.link
    ensures c.summary.Some? <==> t.summary != []
    ensures c.summary.Some? ==> c.summary.value == t.summary
  {
    Candidate(
      if t.title2 != [] then t.title2 else t.title3,
      t.link,
      if t.summary != [] then Some(t.summary) else None)
  }

  /** The candidate record for one block. */
  function CandidateOf(b: Block): Candidate
  {
    Resolve(Extracted(b))
  }

  /** The rule in terms of the raw texts: the anchor text wins when it
      holds anything but white space; otherwise the trimmed `h3` text is
      taken. The summary key is present exactly when the summary text holds
      anything but white space. */
  lemma CandidateRule(b: Block)
    ensures !AllSpace(b.anchorText) ==> CandidateOf(b).title == Trim(b.anchorText) && CandidateOf(b).title != []
    ensures AllSpace(b.anchorText) ==> CandidateOf(b).title == Trim(b.h3Text)
    ensures CandidateOf(b).link == b.href
    ensures CandidateOf(b).summary.Some? <==> !AllSpace(b.summaryText)
    ensures CandidateOf(b).summary.Some? ==>
      CandidateOf(b).summary.value == Trim(b.summaryText) && CandidateOf(b).summary.value != []
  {
  }

  /** One iteration of the `.each` callback: the record is built by
      successive assignments, the title being assigned up to three times. */
  method BuildCandidate(b: Block) returns (c: Candidate)
    ensures c == CandidateOf(b)
  {
    var title := Trim(b.h2Text);
    var title2 := Trim(b.anchorText);
    var title3 := Trim(b.h3Text);
    var link := b.href;
    var summary := Trim(b.summaryText);

    var resultLink := link;
    var resultTitle := title;
    if title != [] {
      resultTitle := title;
    }
    if title2 != [] {
      resultTitle := title2;
    } else {
      resultTitle := title3;
    }
    var resultSummary: Option<string> := None;
    if summary != [] {
      resultSummary := Some(summary);
    }
    c := Candidate(resultTitle, resultLink, resultSummary);
  }

  /** The record does not depend on the `h2` text at all: whatever the
      heading says, the same record is stored. */
  lemma CandidateIgnoresH2(b: Block, h2: string)
    ensures CandidateOf(b.(h2Text := h2)) == CandidateOf(b)
  {
  }

  /** The title is the trimmed `h2` text only when that text also comes
      out of the anchor or the `h3` element. */
  lemma TitleFromH2OnlyByCoincidence(b: Block)
    requires CandidateOf(b).title == Trim(b.h2Text)
    ensures Trim(b.h2Text) == Trim(b.anchorText) || Trim(b.h2Text) == Trim(b.h3Text)
  {
  }

  /** A block with an `h2` and an `h3` but no anchor text is stored under
      the `h3` text, not the `h2` text. */
  lemma H3BeatsH2WithoutAnchor()
    ensures CandidateOf(Block("A", "", "C", None, "")) == Candidate("C", None, None)
  {
    assert Trim("C") == "C" by {
      assert !IsSpace("C"[0]);
      assert |Trim("C")| == 1;
    }
  }

  /** A block with a heading but neither anchor text nor an `h3` gives an
      empty title. */
  lemma H2OnlyGivesEmptyTitle(h2: string, href: Option<string>, summaryText: string)
    ensures CandidateOf(Block(h2, "", "", href, summaryText)).title == []
  {
  }

  /** The block `<article><h2>A</h2><a href="/x">B</a><p class="summary">S</p></article>`
      yields { title: "B", link: "/x", summary: "S" }. */
  lemma ScrapeExample()
    ensures CandidateOf(Block("A", "B", "", Some("/x"), "S")) == Candidate("B", Some("/x"), Some("S"))
  {
    assert Trim("B") == "B" by {
      assert !IsSpace("B"[0]);
      var r := Trim("B");
      assert |r| == 1;
    }
    assert Trim("S") == "S" by {
      assert !IsSpace("S"[0]);
      var r := Trim("S");
      assert |r| == 1;
    }
  }
}
