/**
 * The public HomeController: the landing page's featured projects and
 * About Me record, and the status-code page.
 */
module HomeController {
  import opened Wrappers
  import opened Entities
  import opened DataContext
  import opened Repository
  import opened UnitOfWork

  datatype HomeIndexView = HomeIndexView(featuredProjects: seq<Project>, aboutMe: Option<AboutMe>)

  /** GET Index: the featured projects, and the first About Me record the listing returns. */
  method Index(uow: UnitOfWork) returns (view: HomeIndexView)
    requires uow.Valid()
    modifies uow
    ensures uow.Valid() && uow.context.State() == old(uow.context.State())
    ensures Lists(view.featuredProjects, uow.context.projects.staged, true, IsFeatured)
    ensures var m := uow.context.aboutMe.staged;
      && (view.aboutMe.None? <==> MatchingIds(m, uow.context.aboutMe.filtered, All) == {})
      && (view.aboutMe.Some? ==> view.aboutMe.value.id in MatchingIds(m, uow.context.aboutMe.filtered, All)
                                 && m[view.aboutMe.value.id] == view.aboutMe.value)
  {
    var projects := uow.Projects();
    var featured := projects.Find(IsFeatured);
    var aboutMeRepo := uow.AboutMe();
    var all := aboutMeRepo.GetAll();
    AnyIffFindNonEmpty(all, uow.context.aboutMe.staged, uow.context.aboutMe.filtered, All);
    view := HomeIndexView(featured, if |all| == 0 then None else Some(all[0]));
  }

  /** The text shown for a status code. */
  function StatusMessage(statusCode: int): (message: string)
    ensures message == "An error occurred." <==> statusCode !in {403, 404, 500}
  {
    match statusCode
    case 404 => "The page you were looking for was not found."
    case 403 => "You do not have permission to access this page."
    case 500 => "A server error occurred."
    case _ => "An error occurred."
  }

  datatype StatusPage = StatusPage(statusCode: int, message: string)

  /** GET NotFound: without a code in the route, the response's own status code is shown. */
  function NotFound(statusCode: Option<int>, responseStatusCode: int): (page: StatusPage)
    ensures statusCode.Some? ==> page.statusCode == statusCode.value
    ensures statusCode.None? ==> page.statusCode == responseStatusCode
    ensures page.message == StatusMessage(page.statusCode)
  {
    var code := if statusCode.Some? then statusCode.value else responseStatusCode;
    StatusPage(code, StatusMessage(code))
  }

  /** The three known codes get three different messages, none of them the generic one. */
  lemma KnownCodesDistinguished(a: int, b: int)
    requires a in {403, 404, 500}
    ensures StatusMessage(a) == StatusMessage(b) <==> a == b
  {
    if a != b {
      assert |StatusMessage(a)| != |StatusMessage(b)|;
    }
  }
}
