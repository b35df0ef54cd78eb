/**
 Numbering inline citations (arena/benchmark_runner.py) over a body already cut into text
 and links: every link becomes a marker, and the list of references holds each linked url
 once, in the order of first arrival and under the title of the first link to it.
 */
module Citations {
  import opened Basics
  import CommaText

  datatype Token = Text(text: string) | Link(title: string, url: string)

  datatype Piece = Prose(text: string) | Marker(number: nat)

  datatype Entry = Entry(title: string, url: string)

  function LinkUrls(tokens: seq<Token>): seq<string> {
    if tokens == [] then []
    else
      var last := tokens[|tokens|-1];
      if last.Link? then LinkUrls(tokens[..|tokens|-1]) + [last.url] else LinkUrls(tokens[..|tokens|-1])
  }

  function UrlsOf(refs: seq<Entry>): (urls: seq<string>)
    ensures |urls| == |refs| && forall n :: 0 <= n < |refs| ==> urls[n] == refs[n].url
  {
    if refs == [] then [] else UrlsOf(refs[..|refs|-1]) + [refs[|refs|-1].url]
  }

  /** The title of the first link to a url. */
  function FirstTitle(tokens: seq<Token>, url: string): Option<string> {
    if tokens == [] then None
    else
      var earlier, last := FirstTitle(tokens[..|tokens|-1], url), tokens[|tokens|-1];
      if earlier.Some? then earlier
      else if last.Link? && last.url == url then Some(CommaText.Strip(last.title))
      else None
  }

  /** The references of a body: every url once, under the title of its first link. */
  function References(tokens: seq<Token>): seq<Entry> {
    if tokens == [] then []
    else
      var earlier, last := References(tokens[..|tokens|-1]), tokens[|tokens|-1];
      if last.Link? && last.url !in UrlsOf(earlier) then earlier + [Entry(CommaText.Strip(last.title), last.url)]
      else earlier
  }

  /** The piece stands for the token: text as it is, a link by the number of its url in the list of references. */
  predicate StandsFor(piece: Piece, token: Token, refs: seq<Entry>) {
    match token
    case Text(text) => piece == Prose(text)
    case Link(_, url) => piece.Marker? && 1 <= piece.number <= |refs| && refs[piece.number-1].url == url
  }

  /** url_to_num numbers the references from 1, in their order. */
  ghost predicate Numbers(urlToNum: map<string, nat>, refs: seq<Entry>) {
    forall u :: if u in urlToNum then 1 <= urlToNum[u] <= |refs| && refs[urlToNum[u]-1].url == u else u !in UrlsOf(refs)
  }

  lemma {:induction false} NumbersGrow(urlToNum: map<string, nat>, refs: seq<Entry>, entry: Entry)
    requires Numbers(urlToNum, refs) && entry.url !in urlToNum
    ensures Numbers(urlToNum[entry.url := |refs| + 1], refs + [entry])
  {}

  lemma {:induction false} NumberedUrlIsListed(urlToNum: map<string, nat>, refs: seq<Entry>, url: string)
    requires Numbers(urlToNum, refs)
    ensures url in urlToNum <==> url in UrlsOf(refs)
  {}

  ghost predicate StandForAll(body: seq<Piece>, tokens: seq<Token>, refs: seq<Entry>) {
    |body| == |tokens| && forall i :: 0 <= i < |body| ==> StandsFor(body[i], tokens[i], refs)
  }

  lemma {:induction false} OnePiece(body: seq<Piece>, tokens: seq<Token>, refs: seq<Entry>, more: seq<Entry>, i: nat,
                                    piece: Piece)
    requires i < |tokens| && StandForAll(body, tokens[..i], refs) && refs <= more && StandsFor(piece, tokens[i], more)
    ensures StandForAll(body + [piece], tokens[..i+1], more)
  {}

  lemma {:induction false} NextReferences(tokens: seq<Token>, i: nat)
    requires i < |tokens|
    ensures var refs, token := References(tokens[..i]), tokens[i];
            References(tokens[..i+1])
            == if token.Link? && token.url !in UrlsOf(refs) then refs + [Entry(CommaText.Strip(token.title), token.url)]
               else refs
  {
    assert tokens[..i+1][..i] == tokens[..i];
  }

  /** The substitution callback: a known url keeps its number, a new one gets the next. */
  method Substitute(title: string, url: string, urlToNum: map<string, nat>, refs: seq<Entry>)
    returns (n: nat, nums: map<string, nat>, entries: seq<Entry>)
    requires Numbers(urlToNum, refs)
    ensures Numbers(nums, entries) && 1 <= n <= |entries| && entries[n-1].url == url
    ensures entries == if url in UrlsOf(refs) then refs else refs + [Entry(CommaText.Strip(title), url)]
  {
    NumberedUrlIsListed(urlToNum, refs, url);
    nums, entries := urlToNum, refs;
    if url !in nums {
      n := |refs| + 1;
      NumbersGrow(urlToNum, refs, Entry(CommaText.Strip(title), url));
      nums := nums[url := n];
      entries := entries + [Entry(CommaText.Strip(title), url)];
    } else {
      n := nums[url];
    }
  }

  /** Every marker leads to the url of the link it replaced. */
  method RenumberCitations(tokens: seq<Token>) returns (body: seq<Piece>, refs: seq<Entry>)
    ensures refs == References(tokens) && StandForAll(body, tokens, refs)
  {
    var urlToNum: map<string, nat> := map[];
    body, refs := [], [];
    for i := 0 to |tokens|
      invariant refs == References(tokens[..i]) && StandForAll(body, tokens[..i], refs) && Numbers(urlToNum, refs)
    {
      NextReferences(tokens, i);
      ghost var before := refs;
      var piece := if tokens[i].Text? then Prose(tokens[i].text) else Marker(0);
      if tokens[i].Link? {
        var n;
        n, urlToNum, refs := Substitute(tokens[i].title, tokens[i].url, urlToNum, refs);
        piece := Marker(n);
      }
      OnePiece(body, tokens, before, refs, i, piece);
      body := body + [piece];
    }
    assert tokens[..|tokens|] == tokens;
  }

  /** The references list the linked urls in order of first appearance. */
  lemma {:induction false} ReferencesAreFirstArrivals(tokens: seq<Token>)
    ensures UrlsOf(References(tokens)) == CommaText.FirstArrivals(LinkUrls(tokens))
  {
    if tokens != [] {
      var front, last := tokens[..|tokens|-1], tokens[|tokens|-1];
      ReferencesAreFirstArrivals(front);
      if last.Link? {
        var urls, refs := LinkUrls(front), References(front);
        assert (urls + [last.url])[..|urls|] == urls;
        assert (refs + [Entry(CommaText.Strip(last.title), last.url)])[..|refs|] == refs;
      }
    }
  }

  /** Each under the title of the first link to it. */
  lemma {:induction false} ReferencesKeepFirstTitles(tokens: seq<Token>)
    ensures forall n :: 0 <= n < |References(tokens)| ==>
                        FirstTitle(tokens, References(tokens)[n].url) == Some(References(tokens)[n].title)
  {
    if tokens != [] {
      var front, last := tokens[..|tokens|-1], tokens[|tokens|-1];
      ReferencesKeepFirstTitles(front);
      if last.Link? {
        FirstTitleIsKnown(front, last.url);
        ReferencesAreFirstArrivals(front);
        CommaText.FirstArrivalsAreTheItems(LinkUrls(front));
      }
    }
  }

  lemma {:induction false} FirstTitleIsKnown(tokens: seq<Token>, url: string)
    ensures FirstTitle(tokens, url).Some? <==> url in LinkUrls(tokens)
  {
    if tokens != [] {
      FirstTitleIsKnown(tokens[..|tokens|-1], url);
    }
  }
}
