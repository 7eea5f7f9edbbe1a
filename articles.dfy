/**
 * Article records and the pure rules of the article routes of backend/app.js:
 * the upload filter, the required-field checks of `POST /postArt`, the record
 * it builds, and the merge `PUT /artigos/:id` applies.
 */
module Articles {
  import opened Wrappers
  import opened JsStrings

  /** A stored article (backend/models/artigo.js); `data` is a Date or null, `pdf` a path or null. */
  datatype Article = Article(titulo: string, conteudo: string, autor: string,
                             data: Option<int>, pdf: Option<string>)

  /** The form fields of a create or update request; `None` is a field that was not sent. */
  datatype Body = Body(titulo: Option<string>, conteudo: Option<string>, autor: Option<string>,
                       data: Option<string>, pdf: Option<string>)

  /** The `pdf` part of a multipart request as multer sees it. */
  datatype Upload = NoFile | File(filename: string, mimetype: string, size: nat)

  const PdfMime := "application/pdf"
  const MaxPdfSize := 10 * 1024 * 1024
  const UploadsPrefix := "/uploads/"

  const TituloMsg := "É necessário um titulo"
  const ConteudoMsg := "Adicione um resumo!"
  const AutorMsg := "Cite o autor do Artigo!"
  const DataMsg := "Adicione uma data!"

  /** multer lets the request through: no file, or a PDF of at most 10 MiB. */
  predicate UploadAccepted(u: Upload) {
    u.NoFile? || (u.mimetype == PdfMime && u.size <= MaxPdfSize)
  }

  /** The stored path of an uploaded file, `/uploads/<filename>`. */
  function StoredPath(filename: string): (p: string)
    ensures |p| == |UploadsPrefix| + |filename| && p[..|UploadsPrefix|] == UploadsPrefix
    ensures p[|UploadsPrefix|..] == filename
  {
    UploadsPrefix + filename
  }

  /**
   * The files multer writes to disk for an accepted upload. `resolve` maps a
   * stored path to the file it names, `path.join(__dirname, '..', p)`: the
   * upload lands at the place its stored path resolves to.
   */
  function UploadedFiles(u: Upload, resolve: string -> string): (fs: set<string>)
    ensures u.NoFile? ==> fs == {}
    ensures u.File? ==> fs == {resolve(StoredPath(u.filename))}
  {
    if u.File? then {resolve(StoredPath(u.filename))} else {}
  }

  /** The file on disk a record points to: where its `pdf` resolves, if `artigo.pdf` is truthy. */
  function PdfFiles(a: Article, resolve: string -> string): (fs: set<string>)
    ensures |fs| <= 1
    ensures forall p :: p in fs <==> Truthy(a.pdf) && p == resolve(a.pdf.value)
  {
    if Truthy(a.pdf) then {resolve(a.pdf.value)} else {}
  }

  /**
   * The create handler's checks in source order: the message of the first
   * missing (falsy) field among titulo, conteudo, autor and data.
   */
  function MissingField(b: Body): (r: Option<string>)
    ensures r.None? <==> Truthy(b.titulo) && Truthy(b.conteudo) && Truthy(b.autor) && Truthy(b.data)
    ensures r == Some(TituloMsg) <==> !Truthy(b.titulo)
    ensures r == Some(ConteudoMsg) <==> Truthy(b.titulo) && !Truthy(b.conteudo)
    ensures r == Some(AutorMsg) <==> Truthy(b.titulo) && Truthy(b.conteudo) && !Truthy(b.autor)
    ensures r == Some(DataMsg) <==>
      Truthy(b.titulo) && Truthy(b.conteudo) && Truthy(b.autor) && !Truthy(b.data)
  {
    if !Truthy(b.titulo) then Some(TituloMsg)
    else if !Truthy(b.conteudo) then Some(ConteudoMsg)
    else if !Truthy(b.autor) then Some(AutorMsg)
    else if !Truthy(b.data) then Some(DataMsg)
    else None
  }

  /** Outcome of Mongoose casting a string to a Date. */
  datatype DateCast = BadDate | DateValue(when: Option<int>)

  /**
   * Mongoose's Date cast: '' becomes null, any other string is handed to the
   * date parser `parse` (None: not a date, the save throws a CastError).
   */
  function CastDate(s: string, parse: string -> Option<int>): (r: DateCast)
    ensures s == "" ==> r == DateValue(None)
    ensures s != "" ==> (r.BadDate? <==> parse(s).None?)
    ensures s != "" && r.DateValue? ==> r.when == parse(s)
  {
    if s == "" then DateValue(None)
    else match parse(s)
      case None => BadDate
      case Some(t) => DateValue(Some(t))
  }

  /** The record `POST /postArt` saves, holding exactly the four fields and the upload's path. */
  function NewArticle(b: Body, when: int, u: Upload): (a: Article)
    requires MissingField(b).None?
    ensures a.titulo == b.titulo.value && a.conteudo == b.conteudo.value && a.autor == b.autor.value
    ensures a.data == Some(when)
    ensures u.File? ==> a.pdf == Some(StoredPath(u.filename))
    ensures u.NoFile? ==> a.pdf == None
    ensures a.titulo != "" && a.conteudo != "" && a.autor != ""
  {
    Article(b.titulo.value, b.conteudo.value, b.autor.value, Some(when),
            if u.File? then Some(StoredPath(u.filename)) else None)
  }

  /** `{ ...req.body }`, with `pdf` overridden by the path of a new upload when there is one. */
  function UpdateData(b: Body, u: Upload): (d: Body)
    ensures d.titulo == b.titulo && d.conteudo == b.conteudo && d.autor == b.autor && d.data == b.data
    ensures u.File? ==> d.pdf == Some(StoredPath(u.filename))
    ensures u.NoFile? ==> d.pdf == b.pdf
  {
    if u.File? then b.(pdf := Some(StoredPath(u.filename))) else b
  }

  /** A field sent in the update replaces the stored one; a field not sent is kept. */
  function Pick<T>(sent: Option<T>, stored: T): T {
    sent.GetOr(stored)
  }

  /**
   * `findByIdAndUpdate(id, updateData)`: the fields that were sent replace the
   * stored ones; None when the date does not cast, in which case nothing is written.
   */
  function ApplyUpdate(a: Article, d: Body, parse: string -> Option<int>): (r: Option<Article>)
    ensures r.None? <==> d.data.Some? && CastDate(d.data.value, parse).BadDate?
    ensures r.Some? ==>
      && r.value.titulo == Pick(d.titulo, a.titulo)
      && r.value.conteudo == Pick(d.conteudo, a.conteudo)
      && r.value.autor == Pick(d.autor, a.autor)
      && r.value.data == (if d.data.Some? then CastDate(d.data.value, parse).when else a.data)
      && r.value.pdf == (if d.pdf.Some? then d.pdf else a.pdf)
  {
    var when := if d.data.Some? then CastDate(d.data.value, parse) else DateValue(a.data);
    if when.BadDate? then None
    else Some(Article(Pick(d.titulo, a.titulo), Pick(d.conteudo, a.conteudo), Pick(d.autor, a.autor),
                      when.when, if d.pdf.Some? then d.pdf else a.pdf))
  }

  /** An update that sends nothing leaves the record as it was. */
  lemma EmptyUpdateIsIdentity(a: Article, parse: string -> Option<int>)
    ensures ApplyUpdate(a, Body(None, None, None, None, None), parse) == Some(a)
  {
  }

  /** Sending the same fields twice has the effect of sending them once. */
  lemma UpdateIdempotent(a: Article, d: Body, parse: string -> Option<int>)
    requires ApplyUpdate(a, d, parse).Some?
    ensures ApplyUpdate(ApplyUpdate(a, d, parse).value, d, parse) == ApplyUpdate(a, d, parse)
  {
  }

  /** A field the update does not send is the stored one afterwards. */
  lemma UnsentFieldsKept(a: Article, d: Body, parse: string -> Option<int>)
    requires ApplyUpdate(a, d, parse).Some?
    ensures d.titulo.None? ==> ApplyUpdate(a, d, parse).value.titulo == a.titulo
    ensures d.conteudo.None? ==> ApplyUpdate(a, d, parse).value.conteudo == a.conteudo
    ensures d.autor.None? ==> ApplyUpdate(a, d, parse).value.autor == a.autor
    ensures d.data.None? ==> ApplyUpdate(a, d, parse).value.data == a.data
    ensures d.pdf.None? ==> ApplyUpdate(a, d, parse).value.pdf == a.pdf
  {
  }
}
