/** The virtual proxy pattern: `LazyBookParserProxy` stands in for an
    expensive `BookParser` and builds it only when a page count is first
    asked for, then reuses it. */
module Proxy {
  import opened Wrappers
  import opened Ints

  /** A constructed `BookParser`, remembering the book text it was built from. */
  datatype BookParser = BookParser(book: string)

  /** What the proxy makes observable: the parser's expensive construction,
      and its cheap page-count operation. */
  datatype Effect = ParserConstructed | PagesCounted

  /** `LazyBookParserProxy`: the book text and the cached parser, absent
      until first needed. */
  datatype LazyProxy = LazyProxy(book: string, parser: Option<BookParser>)

  /** The outcome of one `getNumPages` call on the proxy. */
  datatype Query = Query(proxy: LazyProxy, pages: int32, effects: seq<Effect>)

  /** `BookParser::getNumPages`: always 0 in the source. */
  function ParserPages(p: BookParser): (n: int32)
    ensures n == 0
  {
    0
  }

  /** Constructing the proxy stores the book and builds no parser. */
  function NewProxy(book: string): (p: LazyProxy)
    ensures p.book == book
    ensures p.parser == None
  {
    LazyProxy(book, None)
  }

  /** Whatever parser the proxy caches was built from the proxy's own book. */
  predicate Valid(p: LazyProxy)
  {
    p.parser.Some? ==> p.parser.value.book == p.book
  }

  /** `LazyBookParserProxy::getNumPages`: build the parser from the stored
      book if there is none yet, then delegate the page count to it. */
  function GetNumPages(p: LazyProxy): (q: Query)
    ensures q.proxy.book == p.book
    ensures q.proxy.parser.Some?
    ensures p.parser.Some? ==> q.proxy.parser == p.parser
    ensures p.parser.None? ==> q.proxy.parser == Some(BookParser(p.book))
    ensures q.pages == 0
    ensures q.effects == (if p.parser.None? then [ParserConstructed] else []) + [PagesCounted]
    ensures Valid(p) ==> Valid(q.proxy)
  {
    var parser := if p.parser.None? then BookParser(p.book) else p.parser.value;
    var built := if p.parser.None? then [ParserConstructed] else [];
    Query(p.(parser := Some(parser)), ParserPages(parser), built + [PagesCounted])
  }

  /** The proxy and the effects after `n` consecutive `getNumPages` calls. */
  function QueryN(p: LazyProxy, n: nat): (q: Query)
    decreases n
  {
    if n == 0 then Query(p, 0, [])
    else
      var first := GetNumPages(p);
      var rest := QueryN(first.proxy, n - 1);
      Query(rest.proxy, rest.pages, first.effects + rest.effects)
  }

  /** How many parser constructions `es` records. */
  function Constructions(es: seq<Effect>): nat
  {
    if es == [] then 0 else (if es[0] == ParserConstructed then 1 else 0) + Constructions(es[1..])
  }

  /** Constructions add up over concatenated effect sequences. */
  lemma {:induction false} ConstructionsAppend(a: seq<Effect>, b: seq<Effect>)
    ensures Constructions(a + b) == Constructions(a) + Constructions(b)
  {
    if a != [] {
      assert (a + b)[1..] == a[1..] + b;
      ConstructionsAppend(a[1..], b);
    } else {
      assert a + b == b;
    }
  }

  /** At most once: over any number of calls the parser is built at most
      once, exactly once when the proxy started without one and was asked at
      least once, and never when a parser was already cached. The book is
      never changed, every call is counted, and after at least one call a
      parser built from that book is cached. */
  lemma {:induction false} ParserBuiltAtMostOnce(p: LazyProxy, n: nat)
    requires Valid(p)
    ensures Constructions(QueryN(p, n).effects) == (if p.parser.None? && n > 0 then 1 else 0)
    ensures |QueryN(p, n).effects| == n + Constructions(QueryN(p, n).effects)
    ensures QueryN(p, n).proxy.book == p.book
    ensures Valid(QueryN(p, n).proxy)
    ensures n > 0 ==> QueryN(p, n).proxy.parser == Some(BookParser(p.book))
    ensures n > 0 ==> QueryN(p, n).pages == 0
    decreases n
  {
    if n > 0 {
      var first := GetNumPages(p);
      ParserBuiltAtMostOnce(first.proxy, n - 1);
      ConstructionsAppend(first.effects, QueryN(first.proxy, n - 1).effects);
      assert Constructions([PagesCounted]) == 0;
      assert Constructions([ParserConstructed, PagesCounted]) == 1;
    }
  }

  /** The first call on a fresh proxy builds the parser from the stored book
      and reports it; the second call reuses it and reports only the count. */
  lemma FirstCallBuildsSecondReuses(book: string)
    ensures GetNumPages(NewProxy(book)).effects == [ParserConstructed, PagesCounted]
    ensures GetNumPages(GetNumPages(NewProxy(book)).proxy).effects == [PagesCounted]
    ensures GetNumPages(GetNumPages(NewProxy(book)).proxy).proxy == LazyProxy(book, Some(BookParser(book)))
  {
  }
}
