/**
 * The article collection and the upload directory of backend/app.js, and the
 * routes that change them: `POST /postArt`, `DELETE /artigos/:id`,
 * `PUT /artigos/:id`, and the read `GET /artigos`.
 * Each write route runs `checkToken` first; the routes with an upload run
 * multer next, which writes the file before the handler looks at the body.
 */
module ArticleStore {
  import opened Wrappers
  import opened JsStrings
  import opened Http
  import opened AuthGate
  import opened Articles

  /** Identifier of an article record (a MongoDB ObjectId in the source). */
  type Id = nat

  /** The `:id` route parameter: an ObjectId, or a string Mongoose cannot cast to one. */
  datatype IdParam = Malformed | Wellformed(id: Id)

  /** One record as `GET /artigos` returns it. */
  datatype Entry = Entry(id: Id, article: Article)

  const PageSize := 10

  /** The ids of a page, in order. */
  function Ids(page: seq<Entry>): (ids: seq<Id>)
    ensures |ids| == |page| && forall i :: 0 <= i < |page| ==> ids[i] == page[i].id
  {
    seq(|page|, i requires 0 <= i < |page| => page[i].id)
  }

  const PublishedMsg := "Artigo publicado com sucesso!"
  const PublishErrorMsg := "Erro ao publicar artigo"
  const NotFoundMsg := "Artigo não encontrado"
  const DeletedMsg := "Artigo deletado com sucesso!"
  const DeleteErrorMsg := "Erro interno ao deletar artigo"
  const UpdatedMsg := "Artigo atualizado com sucesso"
  const UpdateErrorMsg := "Erro interno ao atualizar artigo"

  /** The order of `sort({ data: -1 })`: null dates sort below every date. */
  predicate DateLe(x: Option<int>, y: Option<int>) {
    x.None? || (y.Some? && x.value <= y.value)
  }

  lemma DateLeTotal(x: Option<int>, y: Option<int>)
    ensures DateLe(x, y) || DateLe(y, x)
  {
  }

  /** `page` lists distinct records of `m`, newest first, as many as `limit` allows, and none left out is newer. */
  ghost predicate IsTopPage(m: map<Id, Article>, page: seq<Id>, limit: nat) {
    && |page| == (if |m| < limit then |m| else limit)
    && (forall i :: 0 <= i < |page| ==> page[i] in m)
    && (forall i, j :: 0 <= i < j < |page| ==> page[i] != page[j])
    && (forall i, j :: 0 <= i < j < |page| ==> DateLe(m[page[j]].data, m[page[i]].data))
    && (forall k, i :: k in m && k !in page && 0 <= i < |page| ==> DateLe(m[k].data, m[page[i]].data))
  }

  /** A record of `among` with the latest date. */
  method Newest(m: map<Id, Article>, among: set<Id>) returns (best: Id)
    requires among != {} && among <= m.Keys
    ensures best in among
    ensures forall k :: k in among ==> DateLe(m[k].data, m[best].data)
  {
    best :| best in among;
    var todo := among - {best};
    while todo != {}
      invariant todo <= among && best in among && best !in todo
      invariant forall k :: k in among && k !in todo ==> DateLe(m[k].data, m[best].data)
      decreases |todo|
    {
      var k :| k in todo;
      if !DateLe(m[k].data, m[best].data) {
        best := k;
      }
      todo := todo - {k};
    }
  }

  /** The selection so far: `page` holds, newest first, the records taken out of `rest`, and none left is newer. */
  ghost predicate Selection(m: map<Id, Article>, page: seq<Id>, rest: set<Id>) {
    && rest <= m.Keys
    && |rest| + |page| == |m.Keys|
    && (forall i :: 0 <= i < |page| ==> page[i] in m && page[i] !in rest)
    && (forall k :: k in m && k !in rest ==> k in page)
    && (forall i, j :: 0 <= i < j < |page| ==> page[i] != page[j])
    && (forall i, j :: 0 <= i < j < |page| ==> DateLe(m[page[j]].data, m[page[i]].data))
    && (forall k, i :: k in rest && 0 <= i < |page| ==> DateLe(m[k].data, m[page[i]].data))
  }

  /** Appending the newest record left keeps the page in date order and above what is left. */
  lemma StepKeepsOrder(m: map<Id, Article>, page: seq<Id>, rest: set<Id>, best: Id)
    requires forall i :: 0 <= i < |page| ==> page[i] in m
    requires rest <= m.Keys && best in rest
    requires forall i, j :: 0 <= i < j < |page| ==> DateLe(m[page[j]].data, m[page[i]].data)
    requires forall k, i :: k in rest && 0 <= i < |page| ==> DateLe(m[k].data, m[page[i]].data)
    requires forall k :: k in rest ==> DateLe(m[k].data, m[best].data)
    ensures var page' := page + [best];
      && (forall i, j :: 0 <= i < j < |page'| ==> DateLe(m[page'[j]].data, m[page'[i]].data))
      && (forall k, i :: k in rest - {best} && 0 <= i < |page'| ==> DateLe(m[k].data, m[page'[i]].data))
  {
    var page' := page + [best];
    forall k, i | k in rest - {best} && 0 <= i < |page'|
      ensures DateLe(m[k].data, m[page'[i]].data)
    {
      if i < |page| {
        assert page'[i] == page[i];
      }
    }
    forall i, j | 0 <= i < j < |page'|
      ensures DateLe(m[page'[j]].data, m[page'[i]].data)
    {
      assert page'[i] == page[i];
      if j < |page| {
        assert page'[j] == page[j];
      }
    }
  }

  /** Taking the newest record left extends the selection. */
  lemma SelectionStep(m: map<Id, Article>, page: seq<Id>, rest: set<Id>, best: Id)
    requires Selection(m, page, rest)
    requires best in rest && forall k :: k in rest ==> DateLe(m[k].data, m[best].data)
    ensures Selection(m, page + [best], rest - {best})
  {
    StepKeepsOrder(m, page, rest, best);
    var page', rest' := page + [best], rest - {best};
    assert |rest'| == |rest| - 1;
    forall i | 0 <= i < |page'|
      ensures page'[i] in m && page'[i] !in rest'
    {
      if i < |page| {
        assert page'[i] == page[i];
      }
    }
    forall k | k in m && k !in rest'
      ensures k in page'
    {
      if k != best {
        assert k in page;
        var i :| 0 <= i < |page| && page[i] == k;
        assert page'[i] == k;
      } else {
        assert page'[|page|] == k;
      }
    }
    forall i, j | 0 <= i < j < |page'|
      ensures page'[i] != page'[j]
    {
      assert page'[i] == page[i];
      if j < |page| {
        assert page'[j] == page[j];
      }
    }
  }

  /** `find().sort({ data: -1 }).limit(limit)`, by repeatedly taking the newest record left. */
  method TopByDate(m: map<Id, Article>, limit: nat) returns (page: seq<Id>)
    ensures IsTopPage(m, page, limit)
  {
    page := [];
    var rest := m.Keys;
    while |page| < limit && rest != {}
      invariant Selection(m, page, rest)
      invariant |page| <= limit
      decreases |rest|
    {
      var best := Newest(m, rest);
      SelectionStep(m, page, rest, best);
      page := page + [best];
      rest := rest - {best};
    }
    assert |m| == |m.Keys|;
  }

  /**
   * The article collection and the disk. `files` holds the regular files on
   * disk that the routes may write or remove; `dirs` the directories, which
   * `fs.existsSync` reports as present and `fs.unlinkSync` refuses to remove.
   * `resolve` is `path.join(__dirname, '..', p)`, from a stored path to a file.
   */
  class Store {
    var articles: map<Id, Article>
    var files: set<string>
    var nextId: Id   // stands in for ObjectId generation: always fresh
    const dirs: set<string>
    const resolve: string -> string

    ghost predicate Valid()
      reads this
    {
      forall id :: id in articles ==> id < nextId
    }

    constructor (initialFiles: set<string>, dirs: set<string>, resolve: string -> string)
      ensures Valid() && articles == map[] && files == initialFiles
      ensures this.dirs == dirs && this.resolve == resolve
    {
      articles := map[];
      files := initialFiles;
      nextId := 0;
      this.dirs := dirs;
      this.resolve := resolve;
    }

    /** Removing the record's file would throw: its `pdf` resolves to a directory. */
    predicate UnlinkThrows(a: Article) {
      Truthy(a.pdf) && resolve(a.pdf.value) in dirs
    }

    /** multer's part of a route: it writes the accepted file, or fails the request. */
    method ReceiveUpload(u: Upload)
      requires UploadAccepted(u)
      modifies this`files
      ensures files == old(files) + UploadedFiles(u, resolve)
    {
      if u.File? {
        files := files + {resolve(StoredPath(u.filename))};
      }
    }

    /**
     * `if (artigo.pdf) { if (fs.existsSync(p)) fs.unlinkSync(p) }` with `p`
     * where `artigo.pdf` resolves: false when the unlink throws, in which case
     * nothing is removed.
     */
    method RemovePdf(a: Article) returns (ok: bool)
      modifies this`files
      ensures ok <==> !UnlinkThrows(a)
      ensures ok ==> files == old(files) - PdfFiles(a, resolve)
      ensures !ok ==> files == old(files)
    {
      if !Truthy(a.pdf) {
        return true;
      }
      var path := resolve(a.pdf.value);
      if path in dirs {
        return false;
      }
      if path in files {
        files := files - {path};
      }
      ok := true;
    }

    /** `POST /postArt`: gate, upload, required fields in order, then the save. */
    method PostArt(gate: Gate, body: Body, upload: Upload, parse: string -> Option<int>) returns (resp: Response)
      requires Valid()
      modifies this
      ensures Valid()
      ensures !gate.Proceed? ==> resp == GateResponse(gate) && unchanged(this)
      ensures gate.Proceed? && !UploadAccepted(upload) ==> resp == ErrorPage(500) && unchanged(this)
      ensures gate.Proceed? && UploadAccepted(upload) ==> files == old(files) + UploadedFiles(upload, resolve)
      ensures gate.Proceed? && UploadAccepted(upload) && MissingField(body).Some? ==>
        resp == Json(422, MissingField(body).value) && articles == old(articles)
      ensures gate.Proceed? && UploadAccepted(upload) && MissingField(body).None?
              && parse(body.data.value).None? ==>
        resp == Json(500, PublishErrorMsg) && articles == old(articles)
      ensures gate.Proceed? && UploadAccepted(upload) && MissingField(body).None?
              && parse(body.data.value).Some? ==>
        && resp == Json(201, PublishedMsg)
        && old(nextId) !in old(articles)
        && articles == old(articles)[old(nextId) := NewArticle(body, parse(body.data.value).value, upload)]
    {
      if !gate.Proceed? {
        return GateResponse(gate);
      }
      if !UploadAccepted(upload) {
        return ErrorPage(500);
      }
      ReceiveUpload(upload);
      var missing := MissingField(body);
      if missing.Some? {
        return Json(422, missing.value);
      }
      match CastDate(body.data.value, parse)
      case BadDate =>
        resp := Json(500, PublishErrorMsg);
      case DateValue(when) =>
        articles := articles[nextId := NewArticle(body, when.value, upload)];
        nextId := nextId + 1;
        resp := Json(201, PublishedMsg);
    }

    /**
     * `DELETE /artigos/:id`: the file the record's `pdf` resolves to goes
     * first, then the record. An unlink that throws answers 500 and keeps the
     * record.
     */
    method Delete(gate: Gate, param: IdParam) returns (resp: Response)
      requires Valid()
      modifies this
      ensures Valid() && nextId == old(nextId)
      ensures !gate.Proceed? ==> resp == GateResponse(gate) && unchanged(this)
      ensures gate.Proceed? && param.Malformed? ==> resp == Json(500, DeleteErrorMsg) && unchanged(this)
      ensures gate.Proceed? && param.Wellformed? && param.id !in old(articles) ==>
        resp == Json(404, NotFoundMsg) && unchanged(this)
      ensures gate.Proceed? && param.Wellformed? && param.id in old(articles)
              && UnlinkThrows(old(articles)[param.id]) ==>
        resp == Json(500, DeleteErrorMsg) && unchanged(this)
      ensures gate.Proceed? && param.Wellformed? && param.id in old(articles)
              && !UnlinkThrows(old(articles)[param.id]) ==>
        && resp == Json(200, DeletedMsg)
        && articles == old(articles) - {param.id}
        && files == old(files) - PdfFiles(old(articles)[param.id], resolve)
    {
      if !gate.Proceed? {
        return GateResponse(gate);
      }
      if param.Malformed? {
        return Json(500, DeleteErrorMsg);
      }
      var id := param.id;
      if id !in articles {
        return Json(404, NotFoundMsg);
      }
      var removed := RemovePdf(articles[id]);
      if !removed {
        return Json(500, DeleteErrorMsg);
      }
      articles := articles - {id};
      resp := Json(200, DeletedMsg);
    }

    /**
     * `PUT /artigos/:id`: with a new PDF the old file is removed before the
     * record is written, so a date that fails to cast leaves the record
     * pointing at a removed file. An unlink that throws answers 500 before
     * the record is written.
     */
    method Update(gate: Gate, param: IdParam, body: Body, upload: Upload, parse: string -> Option<int>)
      returns (resp: Response, updated: Option<Article>)
      requires Valid()
      modifies this
      ensures Valid() && nextId == old(nextId)
      ensures !gate.Proceed? ==> resp == GateResponse(gate) && updated.None? && unchanged(this)
      ensures gate.Proceed? && !UploadAccepted(upload) ==> resp == ErrorPage(500) && updated.None? && unchanged(this)
      ensures gate.Proceed? && UploadAccepted(upload) && (param.Malformed? || param.id !in old(articles)) ==>
        && resp == (if param.Malformed? then Json(500, UpdateErrorMsg) else Json(404, NotFoundMsg))
        && updated.None? && articles == old(articles) && files == old(files) + UploadedFiles(upload, resolve)
      ensures gate.Proceed? && UploadAccepted(upload) && param.Wellformed? && param.id in old(articles)
              && upload.File? && UnlinkThrows(old(articles)[param.id]) ==>
        && resp == Json(500, UpdateErrorMsg) && updated.None?
        && articles == old(articles) && files == old(files) + UploadedFiles(upload, resolve)
      ensures gate.Proceed? && UploadAccepted(upload) && param.Wellformed? && param.id in old(articles)
              && !(upload.File? && UnlinkThrows(old(articles)[param.id])) ==>
        var before := old(articles)[param.id];
        && files == old(files) + UploadedFiles(upload, resolve) - (if upload.File? then PdfFiles(before, resolve) else {})
        && match ApplyUpdate(before, UpdateData(body, upload), parse)
           case None => resp == Json(500, UpdateErrorMsg) && updated.None? && articles == old(articles)
           case Some(after) =>
             resp == Json(200, UpdatedMsg) && updated == Some(after) && articles == old(articles)[param.id := after]
    {
      updated := None;
      if !gate.Proceed? {
        return GateResponse(gate), None;
      }
      if !UploadAccepted(upload) {
        return ErrorPage(500), None;
      }
      ReceiveUpload(upload);
      if param.Malformed? {
        return Json(500, UpdateErrorMsg), None;
      }
      var id := param.id;
      if id !in articles {
        return Json(404, NotFoundMsg), None;
      }
      var artigo := articles[id];
      var updateData := UpdateData(body, upload);
      if upload.File? {
        var removed := RemovePdf(artigo);
        if !removed {
          return Json(500, UpdateErrorMsg), None;
        }
      }
      match ApplyUpdate(artigo, updateData, parse)
      case None =>
        resp := Json(500, UpdateErrorMsg);
      case Some(after) =>
        articles := articles[id := after];
        resp, updated := Json(200, UpdatedMsg), Some(after);
    }

    /** `GET /artigos`: at most ten records, newest first. */
    method List() returns (page: seq<Entry>)
      ensures |page| <= PageSize
      ensures IsTopPage(articles, Ids(page), PageSize)
      ensures forall i :: 0 <= i < |page| ==> page[i].id in articles && page[i].article == articles[page[i].id]
    {
      var m := articles;
      var ids := TopByDate(m, PageSize);
      page := seq(|ids|, i requires 0 <= i < |ids| => Entry(ids[i], m[ids[i]]));
      assert Ids(page) == ids;
    }
  }
}
