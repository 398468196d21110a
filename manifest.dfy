/** The page manifest (`pages/pages.json`) and its home-page guarantee
    (src/nav/manifest.js). */
module Manifest {
  import opened Base

  /** A manifest entry: id such as "home" or "Folder/Page", display title,
      optional kind ("home", "dj") and optional explicit markdown path. */
  datatype Page = Page(id: Option<string>, title: Option<string>, kind: Option<string>, path: Option<string>)

  /** The entry inserted when the manifest has no home page. */
  function HomePage(): Page
  {
    Page(Some("home"), Some("Home"), Some("home"), None)
  }

  /** `p?.id === id`. */
  predicate HasId(p: Page, id: string)
  {
    p.id == Some(id)
  }

  /** `pages.some((p) => p?.id === id)`. */
  predicate HasPage(pages: seq<Page>, id: string)
  {
    exists i :: 0 <= i < |pages| && HasId(pages[i], id)
  }

  /** An entry in front adds its own id and no other. */
  lemma HasPageCons(p: Page, pages: seq<Page>, id: string)
    ensures HasPage([p] + pages, id) <==> HasId(p, id) || HasPage(pages, id)
  {
    var all := [p] + pages;
    assert all[0] == p;
    if HasPage(pages, id) {
      var i :| 0 <= i < |pages| && HasId(pages[i], id);
      assert all[i + 1] == pages[i];
    }
    if HasPage(all, id) && !HasId(p, id) {
      var i :| 0 <= i < |all| && HasId(all[i], id);
      assert pages[i - 1] == all[i];
    }
  }

  /** ensureSpecialPages: copy the manifest (an empty list when it is not an
      array) and `unshift` the home entry when no entry has id "home". */
  method EnsureSpecialPages(manifest: Option<seq<Page>>) returns (out: seq<Page>)
    ensures HasPage(out, "home")
    ensures HasPage(ListOrEmpty(manifest), "home") ==> out == ListOrEmpty(manifest)
    ensures !HasPage(ListOrEmpty(manifest), "home") ==>
      |out| == |ListOrEmpty(manifest)| + 1 && out == [HomePage()] + ListOrEmpty(manifest)
    ensures manifest.None? ==> out == [HomePage()]
  {
    out := ListOrEmpty(manifest);
    if !HasPage(out, "home") {
      out := [HomePage()] + out;
      assert HasId(out[0], "home");
    }
  }
}
