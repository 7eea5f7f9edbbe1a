/**
 * `buscarNoticias` of backend/app.js: fetch each feed of a fixed list in
 * turn, keep the first six items of each one that parses, skip any that
 * fails, and flatten everything in list order. The network fetch and the
 * RSS parsing are the parameter `fetch`, from a feed URL to its outcome.
 */
module News {
  import opened Wrappers
  import opened JsStrings

  /** The fields of an rss-parser item that the aggregator reads; any may be missing. */
  datatype FeedItem = FeedItem(title: Option<string>, link: Option<string>,
                               pubDate: Option<string>, isoDate: Option<string>,
                               contentSnippet: Option<string>, content: Option<string>)

  /** `parser.parseURL(url)`: the feed's items, or a thrown error of any kind. */
  datatype FeedResult = FetchFailed | Feed(items: seq<FeedItem>)

  datatype Source = Source(nome: string, url: string)

  /** One entry of the `GET /noticias` answer. */
  datatype Noticia = Noticia(fonte: string, titulo: Option<string>, link: Option<string>,
                             data: string, resumo: string)

  const Fontes: seq<Source> := [
    Source("Conjur", "https://www.conjur.com.br/rss.xml"),
    Source("STF", "https://portal.stf.jus.br/rss/STF-noticias.xml"),
    Source("STJ", "https://res.stj.jus.br/hrestp-c-portalp/RSS.xml")
  ]

  const PerSource := 6

  /** The object pushed for one item. */
  function ToNoticia(nome: string, item: FeedItem): (n: Noticia)
    ensures n.fonte == nome
  {
    Noticia(nome, item.title, item.link,
            Or(item.pubDate, Or(item.isoDate, "")),
            Or(item.contentSnippet, Or(item.content, "")))
  }

  /** `data` is pubDate, else isoDate, else ''; `resumo` is contentSnippet, else content, else '' (by truthiness). */
  lemma NoticiaFallbacks(nome: string, item: FeedItem)
    ensures var n := ToNoticia(nome, item);
      && n.titulo == item.title && n.link == item.link
      && (Truthy(item.pubDate) ==> n.data == item.pubDate.value)
      && (!Truthy(item.pubDate) && Truthy(item.isoDate) ==> n.data == item.isoDate.value)
      && (!Truthy(item.pubDate) && !Truthy(item.isoDate) ==> n.data == "")
      && (Truthy(item.contentSnippet) ==> n.resumo == item.contentSnippet.value)
      && (!Truthy(item.contentSnippet) && Truthy(item.content) ==> n.resumo == item.content.value)
      && (!Truthy(item.contentSnippet) && !Truthy(item.content) ==> n.resumo == "")
  {
  }

  /** `items.slice(0, 6)` */
  function Firsts(items: seq<FeedItem>): (t: seq<FeedItem>)
    ensures |t| == (if |items| < PerSource then |items| else PerSource)
    ensures t == items[..|t|]
  {
    if |items| < PerSource then items else items[..PerSource]
  }

  /** The items mapped one by one, in order. */
  function MapItems(nome: string, items: seq<FeedItem>): (r: seq<Noticia>)
    ensures |r| == |items|
    ensures forall j :: 0 <= j < |items| ==> r[j] == ToNoticia(nome, items[j])
  {
    seq(|items|, j requires 0 <= j < |items| => ToNoticia(nome, items[j]))
  }

  /** What one source adds to the answer. */
  function Contribution(src: Source, fetch: string -> FeedResult): seq<Noticia> {
    match fetch(src.url)
    case FetchFailed => []
    case Feed(items) => MapItems(src.nome, Firsts(items))
  }

  /** A source that fails adds nothing; one that is read adds its first min(6, n) items, mapped, in feed order. */
  lemma ContributionShape(src: Source, fetch: string -> FeedResult)
    ensures fetch(src.url).FetchFailed? ==> Contribution(src, fetch) == []
    ensures fetch(src.url).Feed? ==>
      var items, r := fetch(src.url).items, Contribution(src, fetch);
      && |r| == (if |items| < PerSource then |items| else PerSource)
      && forall j :: 0 <= j < |r| ==> r[j] == ToNoticia(src.nome, items[j])
  {
  }

  /** The answer over a list of sources: each source's contribution, in list order. */
  function Aggregate(srcs: seq<Source>, fetch: string -> FeedResult): seq<Noticia> {
    if srcs == [] then [] else Contribution(srcs[0], fetch) + Aggregate(srcs[1..], fetch)
  }

  /** The answer for a list split in two is the answer for each part, one after the other. */
  lemma {:induction false} AggregateAppend(a: seq<Source>, b: seq<Source>, fetch: string -> FeedResult)
    ensures Aggregate(a + b, fetch) == Aggregate(a, fetch) + Aggregate(b, fetch)
  {
    if a == [] {
      assert a + b == b;
    } else {
      assert (a + b)[0] == a[0];
      assert (a + b)[1..] == a[1..] + b;
      AggregateAppend(a[1..], b, fetch);
    }
  }

  /** Reading one more source adds its contribution at the end. */
  lemma AggregateSnoc(srcs: seq<Source>, x: Source, fetch: string -> FeedResult)
    ensures Aggregate(srcs + [x], fetch) == Aggregate(srcs, fetch) + Contribution(x, fetch)
  {
    AggregateAppend(srcs, [x], fetch);
    assert [x][1..] == [];
  }

  /** `feed.items.slice(0, 6).forEach(item => todasNoticias.push(...))` */
  method PushFirsts(todas: seq<Noticia>, nome: string, items: seq<FeedItem>) returns (out: seq<Noticia>)
    ensures out == todas + MapItems(nome, Firsts(items))
  {
    var firsts := Firsts(items);
    out := todas;
    for j := 0 to |firsts|
      invariant |out| == |todas| + j
      invariant out[..|todas|] == todas
      invariant forall t :: 0 <= t < j ==> out[|todas| + t] == ToNoticia(nome, firsts[t])
    {
      out := out + [ToNoticia(nome, firsts[j])];
    }
    assert out == todas + MapItems(nome, firsts);
  }

  /** `buscarNoticias()`: the loop over the sources, pushing into `todasNoticias`. */
  method BuscarNoticias(fetch: string -> FeedResult) returns (todas: seq<Noticia>)
    ensures todas == Aggregate(Fontes, fetch)
  {
    todas := [];
    for i := 0 to |Fontes|
      invariant todas == Aggregate(Fontes[..i], fetch)
    {
      var fonte := Fontes[i];
      assert Fontes[..i + 1] == Fontes[..i] + [fonte];
      AggregateSnoc(Fontes[..i], fonte, fetch);
      match fetch(fonte.url)
      case FetchFailed =>
        // the error is logged and the source skipped
      case Feed(items) =>
        todas := PushFirsts(todas, fonte.nome, items);
    }
    assert Fontes[..|Fontes|] == Fontes;
  }

  /** No source can make the aggregation fail; when every source fails the answer is empty. */
  lemma {:induction false} AllFailedGivesEmpty(srcs: seq<Source>, fetch: string -> FeedResult)
    requires forall i :: 0 <= i < |srcs| ==> fetch(srcs[i].url).FetchFailed?
    ensures Aggregate(srcs, fetch) == []
  {
    if srcs != [] {
      AllFailedGivesEmpty(srcs[1..], fetch);
    }
  }

  /** Each source adds at most six items. */
  lemma {:induction false} AggregateBound(srcs: seq<Source>, fetch: string -> FeedResult)
    ensures |Aggregate(srcs, fetch)| <= PerSource * |srcs|
  {
    if srcs != [] {
      AggregateBound(srcs[1..], fetch);
    }
  }

  /** The names of the sources in `srcs` whose feed was read. */
  function ReadSources(srcs: seq<Source>, fetch: string -> FeedResult): set<string> {
    set i | 0 <= i < |srcs| && fetch(srcs[i].url).Feed? :: srcs[i].nome
  }

  /** Every item comes from a source of the list whose feed was read. */
  lemma {:induction false} ItemsFromReadSources(srcs: seq<Source>, fetch: string -> FeedResult)
    ensures forall n :: n in Aggregate(srcs, fetch) ==> n.fonte in ReadSources(srcs, fetch)
  {
    if srcs != [] {
      var c, tail := Contribution(srcs[0], fetch), srcs[1..];
      ItemsFromReadSources(tail, fetch);
      ContributionShape(srcs[0], fetch);
      assert Aggregate(srcs, fetch) == c + Aggregate(tail, fetch);
      forall n | n in c ensures n.fonte in ReadSources(srcs, fetch) {
        assert fetch(srcs[0].url).Feed?;
      }
      forall i | 0 <= i < |tail| && fetch(tail[i].url).Feed? ensures tail[i].nome in ReadSources(srcs, fetch) {
        assert tail[i] == srcs[i + 1];
      }
    }
  }

  /** The answer of `GET /noticias` holds at most eighteen items. */
  lemma NewsBound(fetch: string -> FeedResult)
    ensures |Aggregate(Fontes, fetch)| <= 18
  {
    AggregateBound(Fontes, fetch);
  }
}
