/**
 * The admin article list of public/paginas/sistema/artigos.js, reduced to its
 * logic: the card checkboxes and the tri-state "select all" box, the bulk
 * action bar, the title filter, the bulk-delete guard, and the text a card
 * shows for missing fields. The DOM is the state of `ArticlesPage`; the card
 * list itself is fixed while these handlers run.
 */
module ArticleList {
  import opened Wrappers
  import opened JsStrings

  const ExcerptLength := 100
  const Ellipsis := "..."
  const NoTitle := "Sem título"
  const NoAuthor := "Anônimo"
  const NoDate := "Sem data"

  // ---------------------------------------------------------------- counting checked boxes

  /** The number of checked boxes. */
  function CountTrue(s: seq<bool>): (n: nat)
    ensures n <= |s|
  {
    if s == [] then 0 else CountTrue(s[..|s| - 1]) + (if s[|s| - 1] then 1 else 0)
  }

  /** Some box is checked exactly when the count is positive. */
  lemma {:induction false} SomeCheckedIff(s: seq<bool>)
    ensures CountTrue(s) > 0 <==> true in s
  {
    if s != [] {
      var init := s[..|s| - 1];
      SomeCheckedIff(init);
      assert s == init + [s[|s| - 1]];
    }
  }

  /** Every box is checked exactly when the count is the number of boxes. */
  lemma {:induction false} AllCheckedIff(s: seq<bool>)
    ensures CountTrue(s) == |s| <==> false !in s
  {
    if s != [] {
      var init := s[..|s| - 1];
      AllCheckedIff(init);
      assert s == init + [s[|s| - 1]];
    }
  }

  // ---------------------------------------------------------------- the select-all box

  /** The `checked` and `indeterminate` flags of the select-all box. */
  datatype SelectAll = SelectAll(checked: bool, indeterminate: bool)

  /**
   * The select-all box after `updateBulkActions`: checked when every card is
   * (which includes the case of no cards at all), indeterminate with
   * `checked` left alone when some are, and cleared when none is.
   */
  function NextSelectAll(selected: nat, total: nat, prev: SelectAll): (r: SelectAll)
    requires selected <= total
    ensures r.indeterminate <==> 0 < selected < total
    ensures !r.indeterminate ==> r.checked == (selected == total)
    ensures r.indeterminate ==> r.checked == prev.checked
  {
    if selected == total then SelectAll(true, false)
    else if selected > 0 then prev.(indeterminate := true)
    else SelectAll(false, false)
  }

  // ---------------------------------------------------------------- the title filter

  /** A card stays visible when its lowercased title contains the lowercased search term. */
  predicate TitleMatches(title: string, term: string) {
    Includes(ToLower(title), ToLower(term))
  }

  /** The filter does not depend on the case of the term or of the title. */
  lemma FilterIgnoresCase(title: string, term: string)
    ensures TitleMatches(ToLower(title), ToLower(term)) == TitleMatches(title, term)
  {
    ToLowerIdempotent(title);
    ToLowerIdempotent(term);
  }

  /** The empty term keeps every card. */
  lemma EmptyTermMatchesAll(title: string)
    ensures TitleMatches(title, "")
  {
    assert ToLower("") == "";
    IncludesEmpty(ToLower(title));
  }

  // ---------------------------------------------------------------- bulk delete

  /** The `data-id`s of the checked cards, in page order. */
  function SelectedIds(ids: seq<string>, checked: seq<bool>): (r: seq<string>)
    requires |ids| == |checked|
    ensures |r| == CountTrue(checked)
    ensures forall x :: x in r ==> x in ids
  {
    if ids == [] then []
    else
      var n := |ids| - 1;
      SelectedIds(ids[..n], checked[..n]) + (if checked[n] then [ids[n]] else [])
  }

  /** A card's id is requested for deletion when its box is checked. */
  lemma {:induction false} CheckedIdsSelected(ids: seq<string>, checked: seq<bool>, i: nat)
    requires |ids| == |checked| && i < |ids| && checked[i]
    ensures ids[i] in SelectedIds(ids, checked)
  {
    var n := |ids| - 1;
    if i < n {
      CheckedIdsSelected(ids[..n], checked[..n], i);
    }
  }

  // ---------------------------------------------------------------- card text

  /** The card title: the record's `titulo`, or 'Sem título' when it is missing or empty. */
  function DisplayTitle(titulo: Option<string>): (t: string)
    ensures t != ""
    ensures Truthy(titulo) ==> t == titulo.value
    ensures !Truthy(titulo) ==> t == NoTitle
  {
    Or(titulo, NoTitle)
  }

  /** The card author: the record's `autor`, or 'Anônimo' when it is missing or empty. */
  function DisplayAuthor(autor: Option<string>): (t: string)
    ensures t != ""
    ensures Truthy(autor) ==> t == autor.value
    ensures !Truthy(autor) ==> t == NoAuthor
  {
    Or(autor, NoAuthor)
  }

  /** The card date: the record's `data` as `format` renders it, or 'Sem data'. */
  function DateLabel(data: Option<string>, format: string -> string): (t: string)
    ensures Truthy(data) ==> t == format(data.value)
    ensures !Truthy(data) ==> t == NoDate
  {
    if Truthy(data) then format(data.value) else NoDate
  }

  /**
   * The card excerpt: at most the first 100 characters of `conteudo`, and
   * `...` after them exactly when `conteudo` is longer than that.
   */
  function Excerpt(conteudo: Option<string>): (e: string)
    ensures var text := Or(conteudo, "");
      && (|text| <= ExcerptLength ==> e == text)
      && (|text| > ExcerptLength ==>
            && |e| == ExcerptLength + |Ellipsis|
            && e[..ExcerptLength] == text[..ExcerptLength]
            && e[ExcerptLength..] == Ellipsis)
  {
    var text := Or(conteudo, "");
    if |text| > ExcerptLength then text[..ExcerptLength] + Ellipsis else text
  }

  /** The excerpt never exceeds 103 characters and always starts as the content does. */
  lemma ExcerptBounded(conteudo: Option<string>)
    ensures |Excerpt(conteudo)| <= ExcerptLength + |Ellipsis|
    ensures var text, e := Or(conteudo, ""), Excerpt(conteudo);
      var k := if |text| < ExcerptLength then |text| else ExcerptLength;
      e[..k] == text[..k]
  {
  }

  // ---------------------------------------------------------------- the page

  class ArticlesPage {
    const titles: seq<string>        // `.article-title` text of each card
    const ids: seq<string>           // `data-id` of each card
    const checked: array<bool>       // the `.article-checkbox` of each card
    const displayed: array<bool>     // `style.display` of each card is 'block'
    var search: string               // `#searchInput` value
    var selectAll: SelectAll         // `#selectAll`
    var bulkShown: bool              // `#bulkActions` has the class `show`
    var bulkCount: nat               // the count written into the bar

    ghost predicate Valid()
      reads this
    {
      checked.Length == displayed.Length == |titles| == |ids| && checked != displayed
    }

    /** The page right after the cards are built: nothing checked, everything visible. */
    constructor (titles: seq<string>, ids: seq<string>)
      requires |titles| == |ids|
      ensures Valid() && this.titles == titles && this.ids == ids
      ensures fresh(checked) && fresh(displayed)
      ensures forall i :: 0 <= i < checked.Length ==> !checked[i] && displayed[i]
      ensures search == "" && selectAll == SelectAll(false, false) && !bulkShown
    {
      this.titles := titles;
      this.ids := ids;
      checked := new bool[|titles|](_ => false);
      displayed := new bool[|titles|](_ => true);
      search := "";
      selectAll := SelectAll(false, false);
      bulkShown := false;
      bulkCount := 0;
    }

    /** `Array.from(checkboxes).filter(cb => cb.checked).length` */
    method CountSelected() returns (n: nat)
      requires Valid()
      ensures n == CountTrue(checked[..])
    {
      n := 0;
      for i := 0 to checked.Length
        invariant n == CountTrue(checked[..i])
      {
        assert checked[..i + 1][..i] == checked[..i];
        if checked[i] {
          n := n + 1;
        }
      }
      assert checked[..checked.Length] == checked[..];
    }

    /** `updateBulkActions()`: the bar is shown exactly when some card is checked; the select-all box follows the count. */
    method UpdateBulkActions()
      requires Valid()
      modifies this`selectAll, this`bulkShown, this`bulkCount
      ensures bulkShown <==> true in checked[..]
      ensures bulkShown ==> bulkCount == CountTrue(checked[..])
      ensures !bulkShown ==> bulkCount == old(bulkCount)
      ensures selectAll == NextSelectAll(CountTrue(checked[..]), checked.Length, old(selectAll))
    {
      var selectedCount := CountSelected();
      SomeCheckedIff(checked[..]);
      if selectedCount > 0 {
        bulkShown := true;
        bulkCount := selectedCount;
      } else {
        bulkShown := false;
      }
      if selectedCount == checked.Length {
        selectAll := SelectAll(true, false);
      } else if selectedCount > 0 {
        selectAll := selectAll.(indeterminate := true);
      } else {
        selectAll := SelectAll(false, false);
      }
    }

    /**
     * The `change` handler of the select-all box, run after the browser has
     * set its `checked` flag: every card takes that value, then the bar and
     * the box are recomputed. With no cards the box ends up checked whatever
     * the user chose.
     */
    method OnSelectAllChange()
      requires Valid()
      modifies checked, this`selectAll, this`bulkShown, this`bulkCount
      ensures forall i :: 0 <= i < checked.Length ==> checked[i] == old(selectAll.checked)
      ensures checked.Length > 0 ==> selectAll == SelectAll(old(selectAll.checked), false)
      ensures checked.Length == 0 ==> selectAll == SelectAll(true, false)
      ensures bulkShown <==> checked.Length > 0 && old(selectAll.checked)
    {
      var value := selectAll.checked;
      for i := 0 to checked.Length
        invariant forall j :: 0 <= j < i ==> checked[j] == value
      {
        checked[i] := value;
      }
      AllCheckedIff(checked[..]);
      SomeCheckedIff(checked[..]);
      if checked.Length > 0 {
        assert checked[..][0] == value;
      }
      UpdateBulkActions();
    }

    /** `filterArticles()`: each card is displayed exactly when its title matches the term. */
    method FilterArticles()
      requires Valid()
      modifies displayed
      ensures forall i :: 0 <= i < displayed.Length ==> displayed[i] == TitleMatches(titles[i], search)
    {
      var term := ToLower(search);
      for i := 0 to displayed.Length
        invariant forall j :: 0 <= j < i ==> displayed[j] == TitleMatches(titles[j], search)
      {
        displayed[i] := Includes(ToLower(titles[i]), term);
      }
    }

    /** `clearFilters()`: the term is emptied and every card is shown again. */
    method ClearFilters()
      requires Valid()
      modifies this`search, displayed
      ensures search == ""
      ensures forall i :: 0 <= i < displayed.Length ==> displayed[i]
    {
      search := "";
      FilterArticles();
      forall i | 0 <= i < displayed.Length
        ensures TitleMatches(titles[i], "")
      {
        EmptyTermMatchesAll(titles[i]);
      }
    }

    /**
     * The bulk-delete button: with no checked card it only warns; otherwise,
     * once the user confirms, it asks for the deletion of every checked card.
     * `deletions` lists the ids handed to `deleteArticle`, in page order.
     */
    method BulkDelete(confirmed: bool) returns (deletions: seq<string>, warned: bool)
      requires Valid()
      ensures warned <==> true !in checked[..]
      ensures warned || !confirmed ==> deletions == []
      ensures !warned && confirmed ==> deletions == SelectedIds(ids, checked[..])
    {
      var selected: seq<string> := [];
      for i := 0 to checked.Length
        invariant selected == SelectedIds(ids[..i], checked[..i])
      {
        assert ids[..i + 1][..i] == ids[..i] && checked[..i + 1][..i] == checked[..i];
        if checked[i] {
          selected := selected + [ids[i]];
        }
      }
      assert ids[..checked.Length] == ids && checked[..checked.Length] == checked[..];
      SomeCheckedIff(checked[..]);
      deletions := [];
      warned := false;
      if |selected| == 0 {
        warned := true;
        return;
      }
      if confirmed {
        deletions := selected;
      }
    }
  }
}
