/** The catch-all `flatpage` route (cmspro/urls.py): a requested page path
    is refused when it could climb out of the template directory, and is
    otherwise normalised to the name of an HTML template. */
module Urls {
  import opened Common

  /** `page.rstrip("/")`: the result is a prefix of `page`, every character
      removed was a slash, and it does not end with one. */
  function RStripSlash(page: string): (r: string)
    ensures |r| <= |page| && r == page[..|r|]
    ensures r == [] || r[|r| - 1] != '/'
    ensures forall i :: |r| <= i < |page| ==> page[i] == '/'
  {
    if page != [] && page[|page| - 1] == '/' then RStripSlash(page[..|page| - 1]) else page
  }

  /** The traversal guard, applied to the raw path. */
  predicate Rejected(page: string)
  {
    Contains(page, "..") || StartsWith(page, "/")
  }

  /** The page with trailing slashes removed, then at most one ".html":
      a prefix of the page. */
  function Stem(page: string): (s: string)
    ensures |s| <= |page| && s == page[..|s|]
  {
    var p := RStripSlash(page);
    if EndsWith(p, ".html") then p[..|p| - 5] else p
  }

  /** Trailing slashes removed, then at most one ".html", then ".html"
      appended. */
  function TemplateName(page: string): (t: string)
    ensures EndsWith(t, ".html")
    ensures t[|t| - 1] != '/'
  {
    Stem(page) + ".html"
  }

  datatype Response = NotFound | Render(template: string)

  /** `flatpage`: 404 for a rejected path or a missing template, otherwise
      the template is rendered. `templates` are the template names that
      exist. */
  function Flatpage(page: string, templates: set<string>): (r: Response)
    ensures Rejected(page) ==> r == NotFound
    ensures r.Render? <==> !Rejected(page) && TemplateName(page) in templates
    ensures r.Render? ==> r.template == TemplateName(page)
  {
    if Rejected(page) then NotFound
    else
      var name := TemplateName(page);
      if name in templates then Render(name) else NotFound
  }

  /** Trailing slashes do not matter. */
  lemma {:induction false} TrailingSlashIgnored(page: string)
    ensures TemplateName(page + "/") == TemplateName(page)
  {
    assert (page + "/")[..|page|] == page;
  }

  /** Feeding a produced template name back in gives the same name. */
  lemma TemplateNameIdempotent(page: string)
    ensures TemplateName(TemplateName(page)) == TemplateName(page)
  {
    var t := TemplateName(page);
    assert RStripSlash(t) == t;
    var p := RStripSlash(page);
    var stem := if EndsWith(p, ".html") then p[..|p| - 5] else p;
    assert t == stem + ".html";
    assert t[..|t| - 5] == stem;
  }

  /** "about" names "about.html". */
  lemma AboutPlain()
    ensures TemplateName("about") == "about.html"
  {
    var p := RStripSlash("about");
    assert p == "about";
    assert p[0] != ".html"[0];
    assert !EndsWith(p, ".html");
  }

  /** "about/" names "about.html". */
  lemma AboutSlash()
    ensures TemplateName("about/") == "about.html"
  {
    var p := RStripSlash("about/");
    assert p == "about";
    assert p[0] != ".html"[0];
    assert !EndsWith(p, ".html");
  }

  /** "about.html" names itself. */
  lemma AboutHtml()
    ensures TemplateName("about.html") == "about.html"
  {
    var p := RStripSlash("about.html");
    assert p == "about.html";
    assert EndsWith(p, ".html");
    assert p[..5] == "about";
  }

  /** "about.html/" names "about.html". */
  lemma AboutHtmlSlash()
    ensures TemplateName("about.html/") == "about.html"
  {
    var p := RStripSlash("about.html/");
    assert p == "about.html";
    assert EndsWith(p, ".html");
    assert p[..5] == "about";
  }

  /** "about", "about/", "about.html" and "about.html/" all name the same
      template. */
  lemma AboutVariants()
    ensures TemplateName("about") == TemplateName("about/") == TemplateName("about.html")
         == TemplateName("about.html/") == "about.html"
  {
    AboutPlain();
    AboutSlash();
    AboutHtml();
    AboutHtmlSlash();
  }

  /** Only one ".html" is removed. */
  lemma OneHtmlRemoved()
    ensures TemplateName("news.html.html") == "news.html.html"
  {
    assert RStripSlash("news.html.html") == "news.html.html";
    assert EndsWith("news.html.html", ".html");
    assert "news.html.html"[..9] == "news.html";
  }

  /** A path that passes the guard never yields an absolute template name. */
  lemma AcceptedTemplateIsRelative(page: string)
    requires page == [] || page[0] != '/'
    ensures TemplateName(page)[0] != '/'
  {
    var stem := Stem(page);
    if stem != [] {
      assert stem[0] == page[0];
    }
    assert TemplateName(page)[0] == (stem + ".html")[0];
  }

  /** The guard looks at the raw path only: "a." passes it, although the
      template name it produces contains "..". */
  lemma GuardSeesRawPathOnly()
    ensures !Rejected("a.")
    ensures TemplateName("a.") == "a..html"
    ensures Rejected("a..html")
  {
    assert RStripSlash("a.") == "a.";
    assert !EndsWith("a.", ".html");
    assert !StartsWith("a.", "..");
    assert !StartsWith("a.", "/");
    assert !Contains("a."[1..], "..");
    assert StartsWith("a..html"[1..], "..");
  }
}
