/** A client's walk of a listing by continuation tokens (src/cache/service.rs,
    src/list_token.rs): each page's token minted, passed back, classified and resumed. */
module TokenWalk {
  import opened Base
  import opened Entries
  import opened Rows
  import opened Buckets
  import opened Listing
  import opened ListPages
  import opened Tokens

  /** What a client holds after so many requests. */
  datatype Session =
    | Complete(pages: seq<Page>)
    | Refused(pages: seq<Page>, error: TokenError)
    | Forwarded(pages: seq<Page>)
    | Asking(pages: seq<Page>)

  function RequestOf(shape: Shape): Request {
    Request(if shape.prefix.Some? then shape.prefix.value else [], shape.delimiter)
  }

  /** Where a classified request resumes. */
  function ResumeAfter(c: Continuation, startAfter: Option<Text>): Option<Text> {
    if c.Local? then Some(c.cursor) else startAfter
  }

  function After(page: Page, rest: Session): Session { rest.(pages := [page] + rest.pages) }

  lemma Continues(rows: map<Text, Entry>, q: Request, after: Option<Text>, max: nat)
    requires max > 0 && AllSized(rows, q)
    ensures PageOf(rows, q, after, max).Some?
    ensures PageOf(rows, q, after, max).value.truncated ==> PageOf(rows, q, after, max).value.next.Some?
  {
    hide PageOf, Matching, AllSized;
    PageServed(rows, q, after, max);
    PageIsFull(rows, q, after, max);
  }

  /** The page served to a classified request. */
  ghost function Serve(rows: map<Text, Entry>, q: Request, after: Option<Text>, max: nat): (page: Page)
    requires max > 0 && AllSized(rows, q)
    ensures page.truncated ==> page.next.Some?
  {
    Continues(rows, q, after, max);
    PageOf(rows, q, after, max).value
  }

  /** At most `n` requests, the first with `token`, each later one with the token of the page
      before it. */
  ghost function Ask(digest: Bytes -> Bytes, rows: map<Text, Entry>, shape: Shape, startAfter: Option<Text>, max: nat,
                     token: Option<Bytes>, n: nat): Session
    requires (forall b :: |digest(b)| >= CHECKSUM_BYTES) && max > 0 && AllSized(rows, RequestOf(shape))
    decreases n
  {
    if n == 0 then Asking([]) else
    match Classify(digest, shape, token)
    case Err(e) => Refused([], e)
    case Ok(Origin) => Forwarded([])
    case Ok(c) =>
      var page := Serve(rows, RequestOf(shape), ResumeAfter(c, startAfter), max);
      if !page.truncated then Complete([page])
      else After(page, Ask(digest, rows, shape, startAfter, max, Some(Mint(digest, shape, page.next.value)), n - 1))
  }

  /** The token of a page is one the next request may carry. */
  predicate Passable(shape: Shape, page: Page) {
    page.next.Some? ==> |PayloadLayout(PayloadOf(shape, page.next.value))| <= MAX_PAYLOAD_BYTES
  }

  ghost predicate AllPassable(shape: Shape, pages: seq<Page>) {
    forall i :: 0 <= i < |pages| ==> Passable(shape, pages[i])
  }

  /** How `n` requests end for a listing of `pages`. */
  ghost predicate Tells(o: Session, shape: Shape, pages: seq<Page>, n: nat) {
    && o.pages <= pages && !o.Forwarded?
    && (o.Complete? <==> AllPassable(shape, pages) && n >= |pages|)
    && (o.Complete? ==> o.pages == pages)
    && (o.Refused? ==> o.error == Malformed)
    && (n > |pages| ==> !o.Asking?)
  }

  lemma TellsLast(shape: Shape, page: Page, n: nat)
    requires n > 0 && page.next.None?
    ensures Tells(Complete([page]), shape, [page], n)
  {}

  lemma TellsMore(shape: Shape, page: Page, rest: Session, pages: seq<Page>, n: nat)
    requires Passable(shape, page) && Tells(rest, shape, pages, n)
    ensures Tells(After(page, rest), shape, [page] + pages, n + 1)
  {
    hide Passable;
    var all := [page] + pages;
    assert forall i :: 0 <= i < |pages| ==> all[i + 1] == pages[i];
    assert all[0] == page;
    assert AllPassable(shape, all) <==> AllPassable(shape, pages);
  }

  lemma TellsRefused(shape: Shape, page: Page, pages: seq<Page>, n: nat)
    requires !Passable(shape, page)
    ensures Tells(After(page, if n == 0 then Asking([]) else Refused([], Malformed)), shape, [page] + pages, n + 1)
  {
    assert ([page] + pages)[0] == page;
  }

  lemma {:induction false} AskTells(digest: Bytes -> Bytes, rows: map<Text, Entry>, shape: Shape,
                                    startAfter: Option<Text>, max: nat, token: Option<Bytes>, c: Continuation, n: nat)
    requires (forall b :: |digest(b)| >= CHECKSUM_BYTES) && max > 0 && AllSized(rows, RequestOf(shape))
    requires Classify(digest, shape, token) == Ok(c) && !c.Origin?
    ensures Tells(Ask(digest, rows, shape, startAfter, max, token, n), shape,
                  Walk(rows, RequestOf(shape), ResumeAfter(c, startAfter), max), n)
    decreases n
  {
    hide PageOf, Matching, AllSized, Mint, PayloadLayout, Classify, Tells, Passable, Utf8;
    var (q, after) := (RequestOf(shape), ResumeAfter(c, startAfter));
    Continues(rows, q, after, max);
    PageIsFull(rows, q, after, max);
    var page := PageOf(rows, q, after, max).value;
    var pages := Walk(rows, q, after, max);
    if n == 0 {
      TellsNothing(shape, pages);
    } else if !page.truncated {
      TellsLast(shape, page, n);
    } else {
      WalkShrinks(rows, q, after, max);
      var (next, rest) := (Mint(digest, shape, page.next.value), Walk(rows, q, page.next, max));
      assert pages == [page] + rest;
      if Passable(shape, page) {
        NextResumes(digest, shape, page);
        AskTells(digest, rows, shape, startAfter, max, Some(next), Local(next, page.next.value), n - 1);
        TellsMore(shape, page, Ask(digest, rows, shape, startAfter, max, Some(next), n - 1), rest, n - 1);
      } else {
        NextRefused(digest, shape, page);
        TellsRefused(shape, page, rest, n - 1);
      }
    }
  }

  lemma TellsNothing(shape: Shape, pages: seq<Page>)
    requires pages != []
    ensures Tells(Asking([]), shape, pages, 0)
  {}

  lemma NextResumes(digest: Bytes -> Bytes, shape: Shape, page: Page)
    requires (forall b :: |digest(b)| >= CHECKSUM_BYTES) && page.next.Some? && Passable(shape, page)
    ensures var next := Mint(digest, shape, page.next.value);
      Classify(digest, shape, Some(next)) == Ok(Local(next, page.next.value))
  {
    hide Classify, Mint, PayloadLayout, Utf8;
    TokenRoundTrip(digest, shape, page.next.value);
  }

  lemma NextRefused(digest: Bytes -> Bytes, shape: Shape, page: Page)
    requires (forall b :: |digest(b)| >= CHECKSUM_BYTES) && page.next.Some? && !Passable(shape, page)
    ensures Classify(digest, shape, Some(Mint(digest, shape, page.next.value))) == Err(Malformed)
  {
    hide Classify, Mint, PayloadLayout, Utf8;
    TokenRoundTrip(digest, shape, page.next.value);
  }

  /** A client that passes each page's token back, for as many requests as it takes, receives
      exactly the pages of the walk by raw cursors if and only if every page's token payload
      is within 16 KiB; and otherwise is refused, never served a page it should not be. */
  lemma TokensWalkListing(digest: Bytes -> Bytes, rows: map<Text, Entry>, shape: Shape, startAfter: Option<Text>,
                          max: nat, n: nat)
    requires (forall b :: |digest(b)| >= CHECKSUM_BYTES) && max > 0 && AllSized(rows, RequestOf(shape))
    ensures var pages := Walk(rows, RequestOf(shape), startAfter, max);
      var o := Ask(digest, rows, shape, startAfter, max, None, n);
      && (n >= |pages| ==> (o == Complete(pages) <==> AllPassable(shape, pages)))
      && (n > |pages| && !AllPassable(shape, pages) ==> o.Refused? && o.error == Malformed)
      && o.pages <= pages
  {
    hide Ask, Walk, AllSized, Passable, Utf8;
    assert Classify(digest, shape, None) == Ok(NoToken);
    AskTells(digest, rows, shape, startAfter, max, None, NoToken, n);
  }
}
