/** The navigation bar of the application: the page read from the URL path
    and which of the four menu items is highlighted for it. */
module Nav {
  import opened Wrappers
  import opened JsText

  /** The menu labels, in the order they are shown. */
  const Items: seq<string> := ["Home", "About", "Projects", "Contact"]

  /** `getCurrentPage`: `path` is `window.location.pathname`, absent when
      there is no `window` (rendering outside a browser). The root and
      `/home` are the home page; any other path is its own text after the
      first character, `substring(1)`, which gives `''` for `''`. */
  function CurrentPage(path: Option<string>): (page: string)
    ensures path.None? ==> page == "home"
    ensures path.Some? && path.value != [] ==>
      page == if path.value in {"/", "/home"} then "home" else path.value[1..]
    ensures path == Some([]) ==> page == []
  {
    match path
    case None => "home"
    case Some(p) =>
      if p == "/" || p == "/home" then "home"
      else if p == [] then []
      else p[1..]
  }

  /** `item.toLowerCase() === currentPage.toLowerCase()`. */
  predicate IsActive(item: string, page: string) {
    Lower(item) == Lower(page)
  }

  /** The highlight of each menu item, in menu order. */
  function ActiveFlags(page: string): (flags: seq<bool>)
    ensures |flags| == |Items|
    ensures forall i :: 0 <= i < |Items| ==> (flags[i] <==> IsActive(Items[i], page))
  {
    seq(|Items|, i requires 0 <= i < |Items| => IsActive(Items[i], page))
  }

  /** The lower-case text of each label: the path its link goes to, without
      the slash. */
  lemma ItemsLower()
    ensures Lower(Items[0]) == "home" && Lower(Items[1]) == "about"
    ensures Lower(Items[2]) == "projects" && Lower(Items[3]) == "contact"
  {
    assert Lower("Home") == "home" by {
      assert Lower("Home")[0] == LowerChar('H');
    }
    assert Lower("About") == "about" by {
      assert Lower("About")[0] == LowerChar('A');
    }
    assert Lower("Projects") == "projects" by {
      assert Lower("Projects")[0] == LowerChar('P');
    }
    assert Lower("Contact") == "contact" by {
      assert Lower("Contact")[0] == LowerChar('C');
    }
  }

  /** A path under the root: `'/'` and `'/home'` both read as the home page,
      and `'/' + x` otherwise as `x`. */
  lemma CurrentPageOfPath(x: string)
    ensures CurrentPage(Some("/" + x)) == if x == [] || x == "home" then "home" else x
  {
    var p := "/" + x;
    assert p[1..] == x;
    if p == "/home" {
      assert x == p[1..] == "home";
    }
  }

  /** The labels differ even ignoring case, so at most one item is
      highlighted, whatever the page. */
  lemma AtMostOneActive(page: string, i: nat, j: nat)
    requires i < j < |Items|
    ensures !(ActiveFlags(page)[i] && ActiveFlags(page)[j])
  {
    ItemsLower();
    var a, b := Lower(Items[i]), Lower(Items[j]);
    assert a != b by {
      assert a[0] != b[0];
    }
  }

  /** Following the link of a menu item, `href = '/' + item.toLowerCase()`,
      highlights that item and no other. */
  lemma LinkHighlightsItsItem(k: nat)
    requires k < |Items|
    ensures var flags := ActiveFlags(CurrentPage(Some("/" + Lower(Items[k]))));
      && flags[k]
      && forall i :: 0 <= i < |Items| && i != k ==> !flags[i]
  {
    ItemsLower();
    var page := CurrentPage(Some("/" + Lower(Items[k])));
    CurrentPageOfPath(Lower(Items[k]));
    assert page == Lower(Items[k]);
    LowerIdempotent(page);
    forall i | 0 <= i < |Items| && i != k
      ensures !ActiveFlags(page)[i]
    {
      if i < k {
        AtMostOneActive(page, i, k);
      } else {
        AtMostOneActive(page, k, i);
      }
    }
  }

  /** Lower-casing twice is lower-casing once. */
  lemma LowerIdempotent(s: string)
    ensures Lower(Lower(s)) == Lower(s)
  {
    assert forall i :: 0 <= i < |s| ==> LowerChar(LowerChar(s[i])) == LowerChar(s[i]);
  }

  /** The root, `/home` and rendering without a window highlight Home only;
      the dashboard's `/admin` highlights nothing. */
  lemma HomeAndAdmin()
    ensures ActiveFlags(CurrentPage(None)) == [true, false, false, false]
    ensures ActiveFlags(CurrentPage(Some("/"))) == [true, false, false, false]
    ensures ActiveFlags(CurrentPage(Some("/home"))) == [true, false, false, false]
    ensures ActiveFlags(CurrentPage(Some("/admin"))) == [false, false, false, false]
  {
    ItemsLower();
    assert Lower("home") == "home" by { LowerIdempotent("Home"); }
    var admin := CurrentPage(Some("/admin"));
    assert admin == "admin";
    assert Lower(admin)[0] == 'a' && Lower(admin)[1] == 'd';
    assert Lower(admin) != "home" && Lower(admin) != "projects" && Lower(admin) != "contact";
    assert Lower(admin) != "about" by { assert "about"[1] == 'b'; }
  }
}
