/**
 * The single-page router: a fixed table of three pages, the current page
 * key, the main region's content and the document title, and the
 * navigation links whose `active` class follows the current page.
 */
module Spa {
  import opened Wrappers

  /** One entry of `state.pages`. The page markup is kept as an uninterpreted string. */
  datatype Page = Page(title: string, content: string)

  const IndexMarkup: string := "<section class=\"hero\">index</section>"
  const ProjetosMarkup: string := "<section class=\"projetos\">projetos</section>"
  const CadastroMarkup: string := "<section class=\"cadastro\"><form id=\"formCadastro\">cadastro</form></section>"

  const Pages: map<string, Page> := map[
    "index" := Page("Início - ONG Solidariedade", IndexMarkup),
    "projetos" := Page("Projetos Sociais - ONG Solidariedade", ProjetosMarkup),
    "cadastro" := Page("Cadastro - ONG Solidariedade", CadastroMarkup)
  ]

  /** The table holds exactly the three pages, each titled for the site. */
  lemma PageTable()
    ensures Pages.Keys == {"index", "projetos", "cadastro"}
    ensures Pages["index"].title == "Início - ONG Solidariedade"
    ensures Pages["projetos"].title == "Projetos Sociais - ONG Solidariedade"
    ensures Pages["cadastro"].title == "Cadastro - ONG Solidariedade"
  {
  }

  /** The page whose rendering (re)initialises the form validator. */
  const SignupPage: string := "cadastro"

  /** A `nav a` element: its `data-page` attribute (absent is `None`) and its `active` class. */
  class NavLink {
    const dataPage: Option<string>
    var active: bool

    constructor (dataPage: Option<string>, active: bool)
      ensures this.dataPage == dataPage && this.active == active
    {
      this.dataPage := dataPage;
      this.active := active;
    }
  }

  /** The page an own-key lookup moves to: a known key, or else where the router already is. */
  function NextPage(current: string, pageName: string): (next: string)
    ensures current in Pages ==> next in Pages
    ensures pageName in Pages ==> next == pageName
    ensures pageName !in Pages ==> next == current
  {
    if pageName in Pages then pageName else current
  }

  /** The properties every plain object inherits from `Object.prototype`; each one is truthy. */
  const InheritedProperties: set<string> := {
    "constructor", "hasOwnProperty", "isPrototypeOf", "propertyIsEnumerable",
    "toLocaleString", "toString", "valueOf", "__proto__",
    "__defineGetter__", "__defineSetter__", "__lookupGetter__", "__lookupSetter__"
  }

  /** The guard `if (state.pages[pageName])` as written: inherited properties pass it too. */
  predicate LookupSucceedsAsWritten(pageName: string) {
    pageName in Pages || pageName in InheritedProperties
  }

  /** The page `navigate` moves to under the guard as written. */
  function NextPageAsWritten(current: string, pageName: string): (next: string)
    ensures next == pageName || next == current
  {
    if LookupSucceedsAsWritten(pageName) then pageName else current
  }

  /** As written, `navigate('constructor')` leaves the set of page keys. */
  lemma AsWrittenNavigateLeavesPageKeys()
    ensures "index" in Pages && "constructor" !in Pages
    ensures NextPageAsWritten("index", "constructor") == "constructor"
    ensures NextPage("index", "constructor") == "index"
  {
    assert "constructor" in InheritedProperties;
  }

  class Router {
    /** `state.currentPage`. */
    var currentPage: string
    /** The `nav a` elements, as `querySelectorAll('nav a')` finds them. */
    const links: seq<NavLink>
    /** Whether the document has a `main` element. */
    const hasMain: bool
    /** The `main` element's `innerHTML`. */
    var content: string
    /** `document.title`. */
    var title: string
    /** How many times `FormValidator.init()` has been called. */
    var validatorInits: nat

    ghost predicate Valid()
      reads this
    {
      currentPage in Pages
    }

    ghost function LinkSet(): set<NavLink>
      reads this
    {
      set l | l in links
    }

    /** The router as the module creates it, before `init` runs. */
    constructor (links: seq<NavLink>, hasMain: bool, content: string, title: string)
      ensures Valid() && currentPage == "index"
      ensures this.links == links && this.hasMain == hasMain
      ensures this.content == content && this.title == title && validatorInits == 0
    {
      currentPage := "index";
      this.links := links;
      this.hasMain := hasMain;
      this.content := content;
      this.title := title;
      validatorInits := 0;
    }

    /** `getCurrentPage()`. */
    function GetCurrentPage(): (page: string)
      reads this
      requires Valid()
      ensures page in Pages
    {
      currentPage
    }

    /** `updateNavLinks(pageName)`: exactly the links whose `data-page` is `pageName` end up active. */
    method UpdateNavLinks(pageName: string)
      modifies LinkSet()
      ensures forall l :: l in links ==> l.active == (l.dataPage == Some(pageName))
    {
      for i := 0 to |links|
        invariant forall j :: 0 <= j < i ==> links[j].active == (links[j].dataPage == Some(pageName))
      {
        var link := links[i];
        link.active := false;
        if link.dataPage == Some(pageName) {
          link.active := true;
        }
      }
    }

    /**
     * `renderPage(pageName)`: nothing for an unknown key or a missing `main`;
     * otherwise the page's content and title, the links, and for the signup
     * page one more validator initialisation.
     */
    method RenderPage(pageName: string)
      modifies this`content, this`title, this`validatorInits, LinkSet()
      ensures pageName !in Pages || !hasMain ==>
                && content == old(content) && title == old(title)
                && validatorInits == old(validatorInits)
                && forall l :: l in links ==> l.active == old(l.active)
      ensures pageName in Pages && hasMain ==>
                && content == Pages[pageName].content && title == Pages[pageName].title
                && (forall l :: l in links ==> l.active == (l.dataPage == Some(pageName)))
                && validatorInits == old(validatorInits) + (if pageName == SignupPage then 1 else 0)
    {
      if pageName !in Pages {
        return;
      }
      var page := Pages[pageName];
      if hasMain {
        content := page.content;
        title := page.title;
        UpdateNavLinks(pageName);
        if pageName == SignupPage {
          validatorInits := validatorInits + 1;
        }
      }
    }

    /** `navigate(pageName)`: a known key becomes the current page and is rendered; any other is ignored. */
    method Navigate(pageName: string)
      requires Valid()
      modifies this, LinkSet()
      ensures Valid()
      ensures currentPage == NextPage(old(currentPage), pageName)
      ensures pageName !in Pages ==>
                && currentPage == old(currentPage)
                && content == old(content) && title == old(title)
                && validatorInits == old(validatorInits)
                && forall l :: l in links ==> l.active == old(l.active)
      ensures pageName in Pages ==> currentPage == pageName
      ensures pageName in Pages && !hasMain ==>
                && content == old(content) && title == old(title)
                && validatorInits == old(validatorInits)
                && forall l :: l in links ==> l.active == old(l.active)
      ensures pageName in Pages && hasMain ==>
                && content == Pages[pageName].content && title == Pages[pageName].title
                && (forall l :: l in links ==> l.active == (l.dataPage == Some(pageName)))
                && validatorInits == old(validatorInits) + (if pageName == SignupPage then 1 else 0)
    {
      if pageName in Pages {
        currentPage := pageName;
        RenderPage(pageName);
      }
    }

    /** `init()`: renders the start page (the click listeners are `OnLinkClick`). */
    method Init()
      requires Valid()
      modifies this`content, this`title, this`validatorInits, LinkSet()
      ensures Valid() && currentPage == old(currentPage)
      ensures validatorInits == old(validatorInits)
      ensures hasMain ==>
                && content == Pages["index"].content && title == Pages["index"].title
                && forall l :: l in links ==> l.active == (l.dataPage == Some("index"))
      ensures !hasMain ==>
                && content == old(content) && title == old(title)
                && forall l :: l in links ==> l.active == old(l.active)
    {
      RenderPage("index");
    }

    /** The click listener on a nav link: navigates only when `data-page` is present and non-empty. */
    method OnLinkClick(link: NavLink)
      requires Valid() && link in links
      modifies this, LinkSet()
      ensures Valid()
      ensures link.dataPage.None? || link.dataPage == Some("") ==>
                && currentPage == old(currentPage)
                && content == old(content) && title == old(title)
                && validatorInits == old(validatorInits)
                && forall l :: l in links ==> l.active == old(l.active)
      ensures currentPage == if link.dataPage.Some? then NextPage(old(currentPage), link.dataPage.value)
                             else old(currentPage)
      ensures link.dataPage.Some? && link.dataPage.value !in Pages ==>
                && content == old(content) && title == old(title)
                && validatorInits == old(validatorInits)
                && forall l :: l in links ==> l.active == old(l.active)
      ensures link.dataPage.Some? && link.dataPage.value in Pages && !hasMain ==>
                && content == old(content) && title == old(title)
                && validatorInits == old(validatorInits)
                && forall l :: l in links ==> l.active == old(l.active)
      ensures link.dataPage.Some? && link.dataPage.value in Pages && hasMain ==>
                var key := link.dataPage.value;
                && content == Pages[key].content && title == Pages[key].title
                && (forall l :: l in links ==> l.active == (l.dataPage == Some(key)))
                && validatorInits == old(validatorInits) + (if key == SignupPage then 1 else 0)
    {
      var pageName := link.dataPage;
      if pageName.Some? && pageName.value != "" {
        Navigate(pageName.value);
      }
    }
  }

  /** A client of the router: what callers can rely on from the contracts alone. */
  method NavigationScenario()
  {
    var home := new NavLink(Some("index"), false);
    var signup := new NavLink(Some("cadastro"), false);
    var router := new Router([home, signup], true, "", "");
    router.Navigate("cadastro");
    assert router.GetCurrentPage() == "cadastro" && router.title == "Cadastro - ONG Solidariedade";
    assert signup.active && !home.active && router.validatorInits == 1;
    router.Navigate("doesNotExist");
    assert router.currentPage == "cadastro" && router.content == CadastroMarkup && signup.active;
    router.OnLinkClick(home);
    assert router.currentPage == "index" && router.title == "Início - ONG Solidariedade";
    assert home.active && !signup.active && router.validatorInits == 1;
  }
}
