# MyWebSite persistence and controller core in Dafny

This project models the server-side core of MyWebSite, an ASP.NET Core portfolio
site with a public area and an admin area:

- the generic repository over EF Core's `DbSet`, with its soft delete (`IsDeleted`);
- the unit of work that hands out one repository per entity kind and forwards
  `SaveChanges` and the transaction calls to the `ApplicationDbContext`;
- the admin controllers (Projects, AboutMe, ResumeItems, Skills, ContactMessages, Dashboard);
- the public Home, Resume and Contact controllers;
- the contact-form validator;
- the image-upload check of the Projects controller;
- the start-up seeder that makes sure the `Admin` role and the admin user exist.

The session is a `DataContext.ApplicationDbContext` with five `EntitySet`s. Each set holds
two maps keyed by Id:

- `saved` is what the database holds;
- `staged` is what the session sees, with every pending add, edit and removal applied.

Every read goes through `staged` and, for Project and ContactMessage, hides
soft-deleted rows (the query filter `!IsDeleted`). A request's session starts
with nothing pending and each modelled action reads before it writes, so its
reads see the rows as saved in the database. `SaveChanges` copies every
staged row into the database and returns the number of rows whose value it changed. Each
controller action is a method over the `UnitOfWork`. Its contract says which
`ActionResult` it returns and what the whole session is afterwards, written as the
value `DbState` with one table changed and then published.

Inputs the program gets from the outside world are parameters:

- `Guid.NewGuid()` and `DateTime.Now`;
- whether model binding succeeded (`ModelState.IsValid` minus the validator's own rules);
- the uploaded file's length, name and content type;
- the operating system's path separators and invalid file-name characters.

Sorting with `OrderBy`/`OrderByDescending`/`ThenByDescending` is modelled by a
stable insertion sort (`Linq.Sort`). Its result is proved sorted, a permutation
of its input, and order-preserving among ties.

ASP.NET Identity is modelled only as far as the seeder uses it (`Identity.IdentityStore`):

- roles, users and user-role pairs;
- the password policy configured in `Program.cs` (length 8; a digit, a lower-case
  letter, an upper-case letter and a non-alphanumeric character required);
- the user-name character set and unique user names;
- unique e-mail addresses.

## Model

| member | source | states |
|---|---|---|
| Repository.GenericRepository.GetAll | MyWebSite.Data/Repositories/GenericRepository.cs:30-34 | the result lists every visible row of the set exactly once, each as stored under its Id, and nothing else |
| Repository.GenericRepository.Find | MyWebSite.Data/Repositories/GenericRepository.cs:37-41 | the result lists exactly the visible rows satisfying the predicate, once each |
| Repository.GenericRepository.GetById | MyWebSite.Data/Repositories/GenericRepository.cs:44-48 | a row comes back iff the Id is stored and the row is visible, and it is the stored row with that Id |
| Repository.GenericRepository.Any | MyWebSite.Data/Repositories/GenericRepository.cs:109-113 | true iff some visible row satisfies the predicate |
| Repository.AnyIffFindNonEmpty | MyWebSite.Data/Repositories/GenericRepository.cs:37-41 | a listing for a predicate is non-empty iff Any would answer true for it |
| Repository.ListingSize | MyWebSite.Data/Repositories/GenericRepository.cs:30-41 | the length of a listing equals the number of visible rows matching its predicate, so `Count()` counts rows, not duplicates |
| Repository.DistinctIdsSize | MyWebSite.Data/Repositories/GenericRepository.cs:30-41 | a sequence of rows with pairwise distinct Ids has as many distinct Ids as rows |
| Repository.NarrowerQueryNoLarger | MyWebSite.Data/Repositories/GenericRepository.cs:37-41 | a predicate that implies another matches a subset of its rows, hence no more rows |
| Repository.Stamped | MyWebSite.Data/Repositories/GenericRepository.cs:52-62 | the added row has a non-empty Id, keeps a non-empty Id it came with, gets CreatedAt = now and keeps every other field |
| Repository.GenericRepository.Add | MyWebSite.Data/Repositories/GenericRepository.cs:52-66 | the stamped row is staged under its Id and returned; an Id already tracked fails with a duplicate key and stages nothing; the database is untouched |
| Repository.GenericRepository.Update | MyWebSite.Data/Repositories/GenericRepository.cs:71-77 | the row is staged with UpdatedDate = now and every other field as given; nothing else changes |
| Repository.SoftDeleted | MyWebSite.Data/Repositories/GenericRepository.cs:85-89 | a soft-deleted row has IsDeleted set and UpdatedDate = now, and keeps its Id, CreatedAt and content |
| Repository.SoftDeleteTwice | MyWebSite.Data/Repositories/GenericRepository.cs:81-93 | deleting a row twice is the same as deleting it once at the later time |
| Repository.GenericRepository.Delete | MyWebSite.Data/Repositories/GenericRepository.cs:81-93 | a visible row is replaced by its soft-deleted form; a missing or hidden Id changes nothing |
| Repository.GenericRepository.DeletePermanently | MyWebSite.Data/Repositories/GenericRepository.cs:96-106 | a visible row is removed from the session; a missing or hidden Id changes nothing |
| Repository.GenericRepository.constructor | MyWebSite.Data/Repositories/GenericRepository.cs:21-26 | the repository works on the given set |
| DataContext.NothingPendingIffSame | MyWebSite.Data/UnitOfWork/UnitOfWork.cs:107-110 | no row is pending exactly when the session and the database agree |
| DataContext.EntitySet.constructor | MyWebSite.Data/Context/ApplicationDbContext.cs:18-19 | a new set is empty, with or without the soft-delete filter |
| DataContext.EntitySet.WriteBack | MyWebSite.Web/Areas/Admin/Controllers/ProjectsController.cs:163-168 | field assignments on a tracked row replace exactly that row in the session |
| DataContext.EntitySet.Publish | MyWebSite.Data/UnitOfWork/UnitOfWork.cs:107-110 | the database of one set becomes its session rows |
| DataContext.ApplicationDbContext.constructor | MyWebSite.Data/Context/ApplicationDbContext.cs:46-47 | a new session is clean and empty; Project and ContactMessage always carry the soft-delete filter |
| DataContext.ApplicationDbContext.SaveChanges | MyWebSite.Data/UnitOfWork/UnitOfWork.cs:107-110 | every staged row of every set reaches the database, the session is clean afterwards, and the count returned is the number of rows that differed |
| DataContext.ApplicationDbContext.Dispose | MyWebSite.Data/UnitOfWork/UnitOfWork.cs:91-95 | the session is marked disposed |
| UnitOfWork.Transaction.constructor | MyWebSite.Data/UnitOfWork/UnitOfWork.cs:76-79 | a new transaction is active and not disposed |
| UnitOfWork.Transaction.Commit | MyWebSite.Data/UnitOfWork/UnitOfWork.cs:85 | the transaction is committed |
| UnitOfWork.Transaction.Rollback | MyWebSite.Data/UnitOfWork/UnitOfWork.cs:101 | the transaction is rolled back |
| UnitOfWork.Transaction.Dispose | MyWebSite.Data/UnitOfWork/UnitOfWork.cs:93 | disposing an active transaction rolls it back; a finished one keeps its outcome |
| UnitOfWork.UnitOfWork.constructor | MyWebSite.Data/UnitOfWork/UnitOfWork.cs:24-27 | a new unit of work wraps the given context, with no transaction and no repository created yet |
| UnitOfWork.UnitOfWork.Projects | MyWebSite.Data/UnitOfWork/UnitOfWork.cs:30-37 | the repository over the Projects set, created on first use and the same object on every later use |
| UnitOfWork.UnitOfWork.ContactMessages | MyWebSite.Data/UnitOfWork/UnitOfWork.cs:39-47 | the repository over the ContactMessages set, created once and reused |
| UnitOfWork.UnitOfWork.ResumeItems | MyWebSite.Data/UnitOfWork/UnitOfWork.cs:49-56 | the repository over the ResumeItems set, created once and reused |
| UnitOfWork.UnitOfWork.Skills | MyWebSite.Data/UnitOfWork/UnitOfWork.cs:58-65 | the repository over the Skills set, created once and reused |
| UnitOfWork.UnitOfWork.AboutMe | MyWebSite.Data/UnitOfWork/UnitOfWork.cs:67-74 | the repository over the AboutMe set, created once and reused |
| UnitOfWork.UnitOfWork.BeginTransaction | MyWebSite.Data/UnitOfWork/UnitOfWork.cs:76-79 | a fresh active transaction becomes the current one iff none is active; while one is active the call is refused and the open transaction is kept |
| UnitOfWork.UnitOfWork.CommitTransaction | MyWebSite.Data/UnitOfWork/UnitOfWork.cs:81-89 | a current transaction is committed and disposed and then cleared; without one nothing happens |
| UnitOfWork.UnitOfWork.RollbackTransaction | MyWebSite.Data/UnitOfWork/UnitOfWork.cs:97-105 | a current transaction is rolled back and disposed and then cleared; without one nothing happens |
| UnitOfWork.UnitOfWork.SaveChanges | MyWebSite.Data/UnitOfWork/UnitOfWork.cs:107-110 | the context's SaveChanges: every staged row is published and the number of rows that differed returned |
| UnitOfWork.UnitOfWork.Dispose | MyWebSite.Data/UnitOfWork/UnitOfWork.cs:91-95 | the context is disposed, and a current transaction is disposed (rolled back if still active) |
| ContactMessageValidator.Validate | MyWebSite.Web/Validators/ContactMessageValidator.cs:10-25 | no error iff the name is present and at most 100 characters, the e-mail present, well formed and at most 200, the subject present and at most 200, and the message present and at least 10; a missing name is reported first |
| ContactMessageValidator.EmailAddressShape | MyWebSite.Web/Validators/ContactMessageValidator.cs:16 | an e-mail address has exactly one '@', neither first nor last |
| ContactMessageValidator.AcceptedFitsColumns | MyWebSite.Data/Context/ApplicationDbContext.cs:39-41 | an accepted message fits the column lengths of the ContactMessages table |
| ContactMessageValidator.LongerMessageStillValid | MyWebSite.Web/Validators/ContactMessageValidator.cs:23-25 | lengthening the body of an accepted message keeps it accepted (the body has no maximum) |
| Text.ToLower | MyWebSite.Web/Areas/Admin/Controllers/ProjectsController.cs:229 | lower-casing keeps the length and maps every upper-case ASCII letter to its lower-case form and every other character to itself |
| Text.IndexOf | MyWebSite.Web/Validators/ContactMessageValidator.cs:16 | the first position of a character, or -1 iff it does not occur |
| Text.LastIndexOf | MyWebSite.Web/Areas/Admin/Controllers/ProjectsController.cs:229 | the last position of a character, or -1 iff it does not occur |
| Paths.LastSeparator | MyWebSite.Web/Areas/Admin/Controllers/ProjectsController.cs:254 | the position of the last directory separator, with no separator after it, or -1 |
| Paths.GetFileName | MyWebSite.Web/Areas/Admin/Controllers/ProjectsController.cs:254 | the file name is the tail of the path after its last separator and contains no separator |
| Paths.ExtensionOf | MyWebSite.Web/Areas/Admin/Controllers/ProjectsController.cs:229 | an extension is empty or a dot followed by at least one character and no further dot |
| Paths.StemOf | MyWebSite.Web/Areas/Admin/Controllers/ProjectsController.cs:254 | the name without extension is a prefix of the name, strictly shorter when the name has a dot |
| Paths.ExtensionIsTail | MyWebSite.Web/Areas/Admin/Controllers/ProjectsController.cs:229 | the extension is a suffix of the name, and it is empty iff the name has no dot or ends with one |
| Paths.StemAndExtensionMakeName | MyWebSite.Web/Areas/Admin/Controllers/ProjectsController.cs:229-254 | for a name not ending in a dot, stem and extension put back together give the name |
| ImageUpload.WrapInt32 | MyWebSite.Web/Areas/Admin/Controllers/ProjectsController.cs:221 | the 32-bit two's-complement value congruent to the input, the input itself when it fits |
| ImageUpload.ValidateImageFile | MyWebSite.Web/Areas/Admin/Controllers/ProjectsController.cs:212-262 | a missing or empty file passes; otherwise it passes iff it is within the size limit, has an allowed extension (any case), an allowed content type (any case) and a name without invalid characters; the message is empty iff it passes, and each failure gets the message of the first check it fails |
| ImageUpload.SizeLimitExact | MyWebSite.Web/Areas/Admin/Controllers/ProjectsController.cs:221 | for limits below 2048 MB the byte limit is exact |
| ImageUpload.SizeLimitOverflows | MyWebSite.Web/Areas/Admin/Controllers/ProjectsController.cs:221 | from 2048 MB on the 32-bit product wraps (2048 MB gives a negative limit, 4096 MB gives 0) |
| ImageUpload.FiveMegabytes | MyWebSite.Web/Areas/Admin/Controllers/ProjectsController.cs:212 | the default limit of 5 MB is 5242880 bytes |
| ImageUpload.MismatchedTypesAccepted | MyWebSite.Web/Areas/Admin/Controllers/ProjectsController.cs:236-250 | the content type is checked against the list only, not against the extension: a `.png` sent as `image/jpeg` passes |
| ImageUpload.GuidToString | MyWebSite.Web/Areas/Admin/Controllers/ProjectsController.cs:67 | a Guid prints as 36 characters with dashes at positions 8, 13, 18 and 23 |
| ImageUpload.GuidToStringInjective | MyWebSite.Web/Areas/Admin/Controllers/ProjectsController.cs:67 | different Guids print differently |
| ImageUpload.ImageUrlParts | MyWebSite.Web/Areas/Admin/Controllers/ProjectsController.cs:67-76 | the stored URL is `/images/projects/`, the printed Guid, `_` and the uploaded file name |
| ImageUpload.ImageUrlsDistinct | MyWebSite.Web/Areas/Admin/Controllers/ProjectsController.cs:66-67 | uploads under different Guids never share a URL, whatever their file names |
| ProjectsController.NewImageUrl | MyWebSite.Web/Areas/Admin/Controllers/ProjectsController.cs:57-77 | an upload sets the URL built from its Guid and name; without one the URL is kept |
| ProjectsController.Edited | MyWebSite.Web/Areas/Admin/Controllers/ProjectsController.cs:129-168 | the six editable fields come from the form, the image from a new upload or the stored one, and Id, CreatedAt, UpdatedDate and IsDeleted are kept |
| ProjectsController.EditIdempotent | MyWebSite.Web/Areas/Admin/Controllers/ProjectsController.cs:163-168 | without an upload, applying the same edit twice equals applying it once |
| ProjectsController.Create | MyWebSite.Web/Areas/Admin/Controllers/ProjectsController.cs:44-87 | an invalid image or form shows the form and changes nothing; a taken Id is a server error that changes nothing; otherwise the stamped project with its image URL is saved and the list is shown |
| ProjectsController.SaveNew | MyWebSite.Web/Areas/Admin/Controllers/ProjectsController.cs:79-86 | the project is added with a fresh Id and CreatedAt and saved, or a taken Id changes nothing |
| ProjectsController.Edit | MyWebSite.Web/Areas/Admin/Controllers/ProjectsController.cs:102-178 | a route Id differing from the form's is not found; an invalid image or form shows the form; a missing or deleted project is not found; in those cases nothing changes; otherwise exactly that project is replaced by its edited form and saved |
| ProjectsController.SaveEdit | MyWebSite.Web/Areas/Admin/Controllers/ProjectsController.cs:120-175 | a visible project is edited and saved; a missing or deleted one is not found and nothing changes |
| ProjectsController.DeleteConfirmed | MyWebSite.Web/Areas/Admin/Controllers/ProjectsController.cs:191-206 | a visible project is soft-deleted and saved; otherwise not found and nothing changes |
| AboutMeController.NewRecord | MyWebSite.Web/Areas/Admin/Controllers/AboutMeController.cs:74-88 | the new record carries the posted content, the fresh Id, is not deleted and has no update date |
| AboutMeController.Edited | MyWebSite.Web/Areas/Admin/Controllers/AboutMeController.cs:128-134 | the record takes the posted content and UpdatedDate = now, keeping Id, CreatedAt and IsDeleted |
| AboutMeController.AddToEmptyIsSingle | MyWebSite.Web/Areas/Admin/Controllers/AboutMeController.cs:61-95 | adding a live record where none is visible leaves exactly that one visible |
| AboutMeController.SameFlagSameVisible | MyWebSite.Web/Areas/Admin/Controllers/AboutMeController.cs:112-143 | an edit that keeps the deleted flag does not change which records are visible |
| AboutMeController.SoftDeleteHidesOnly | MyWebSite.Web/Areas/Admin/Controllers/AboutMeController.cs:159-173 | a deletion never makes a record visible, so at most one visible record stays at most one |
| AboutMeController.Index | MyWebSite.Web/Areas/Admin/Controllers/AboutMeController.cs:20-32 | redirects to Create iff no record is visible, otherwise shows the page; nothing changes |
| AboutMeController.CreateForm | MyWebSite.Web/Areas/Admin/Controllers/AboutMeController.cs:46-57 | redirects to Edit of the first visible record when one exists, otherwise shows the form; nothing changes |
| AboutMeController.Create | MyWebSite.Web/Areas/Admin/Controllers/AboutMeController.cs:61-95 | an existing visible record sends the user to its Edit page and changes nothing; an invalid form shows the form; otherwise the new record is added and saved and is then the only visible one; at most one visible record stays at most one |
| AboutMeController.AddRecord | MyWebSite.Web/Areas/Admin/Controllers/AboutMeController.cs:86-88 | the record is added with CreatedAt = now and saved; added live to a table with none visible, it is the only visible record |
| AboutMeController.Edit | MyWebSite.Web/Areas/Admin/Controllers/AboutMeController.cs:112-143 | mismatched Ids and missing records are not found, an invalid form shows the form, in all three cases with no change; otherwise the record is edited and saved; at most one visible record stays at most one |
| AboutMeController.DeleteConfirmed | MyWebSite.Web/Areas/Admin/Controllers/AboutMeController.cs:159-173 | a visible record is soft-deleted and saved; otherwise not found and nothing changes; at most one visible record stays at most one |
| ResumeItemsController.Edited | MyWebSite.Web/Areas/Admin/Controllers/ResumeItemsController.cs:90-97 | the item takes the posted content and keeps Id, CreatedAt, UpdatedDate and IsDeleted |
| ResumeItemsController.Create | MyWebSite.Web/Areas/Admin/Controllers/ResumeItemsController.cs:44-56 | an invalid form shows the form and changes nothing; a taken Id is a server error; otherwise the stamped item is saved |
| ResumeItemsController.Edit | MyWebSite.Web/Areas/Admin/Controllers/ResumeItemsController.cs:71-107 | mismatched Ids and missing items are not found, an invalid form shows the form, all with no change; otherwise the item is edited and saved |
| ResumeItemsController.DeleteConfirmed | MyWebSite.Web/Areas/Admin/Controllers/ResumeItemsController.cs:121-135 | a visible item is soft-deleted and saved; otherwise not found and nothing changes |
| SkillsController.Edited | MyWebSite.Web/Areas/Admin/Controllers/SkillsController.cs:88-90 | the skill takes the posted content and keeps Id, CreatedAt, UpdatedDate and IsDeleted |
| SkillsController.Create | MyWebSite.Web/Areas/Admin/Controllers/SkillsController.cs:43-55 | an invalid form shows the form and changes nothing; a taken Id is a server error; otherwise the stamped skill is saved |
| SkillsController.Edit | MyWebSite.Web/Areas/Admin/Controllers/SkillsController.cs:70-100 | mismatched Ids and missing skills are not found, an invalid form shows the form, all with no change; otherwise the skill is edited and saved |
| SkillsController.DeleteConfirmed | MyWebSite.Web/Areas/Admin/Controllers/SkillsController.cs:114-128 | a visible skill is soft-deleted and saved; otherwise not found and nothing changes |
| ContactMessagesController.MarkedRead | MyWebSite.Web/Areas/Admin/Controllers/ContactMessagesController.cs:59-60 | the message is read and stamped with now; sender, address, subject, body, Id, CreatedAt and deleted flag are kept |
| ContactMessagesController.NewerFirstIsStrictWeak | MyWebSite.Web/Areas/Admin/Controllers/ContactMessagesController.cs:24 | newest-first by CreatedAt is a strict weak order, so the sorted listing is well defined |
| ContactMessagesController.Index | MyWebSite.Web/Areas/Admin/Controllers/ContactMessagesController.cs:20-26 | the page lists every visible message once, newest first; nothing changes |
| ContactMessagesController.Details | MyWebSite.Web/Areas/Admin/Controllers/ContactMessagesController.cs:29-46 | a missing or deleted message is not found; a read one is shown unchanged; an unread one is marked read, stamped, saved and shown |
| ContactMessagesController.MarkAsRead | MyWebSite.Web/Areas/Admin/Controllers/ContactMessagesController.cs:51-65 | a visible message is marked read and stamped (even if already read) and saved; otherwise not found and nothing changes |
| ContactMessagesController.DeleteConfirmed | MyWebSite.Web/Areas/Admin/Controllers/ContactMessagesController.cs:81-95 | a visible message is soft-deleted and saved; otherwise not found and nothing changes |
| ContactMessagesController.OpenedIdempotent | MyWebSite.Web/Areas/Admin/Controllers/ContactMessagesController.cs:37-43 | opening a message a second time changes nothing, in particular not its UpdatedDate |
| ContactMessagesController.ReadingClearsUnread | MyWebSite.Web/Areas/Admin/Controllers/ContactMessagesController.cs:29-65 | opening or marking a visible message removes exactly its Id from the unread set |
| ContactMessagesController.NeverUnread | MyWebSite.Web/Areas/Admin/Controllers/ContactMessagesController.cs:29-95 | no admin action turns a read message back into an unread one |
| DashboardController.Index | MyWebSite.Web/Areas/Admin/Controllers/DashboardController.cs:20-41 | the four counts are the numbers of visible projects, visible messages, unread visible messages and featured visible projects; unread ≤ total and featured ≤ total; nothing changes |
| DashboardController.CountProjects | MyWebSite.Web/Areas/Admin/Controllers/DashboardController.cs:22-28 | total and featured project counts are the sizes of the matching row sets, featured ≤ total |
| DashboardController.CountMessages | MyWebSite.Web/Areas/Admin/Controllers/DashboardController.cs:24-26 | total and unread message counts are the sizes of the matching row sets, unread ≤ total |
| HomeController.Index | MyWebSite.Web/Controllers/HomeController.cs:24-38 | the featured list holds exactly the visible featured projects; the About Me part is empty iff no record is visible, and otherwise a visible stored record; nothing changes |
| HomeController.StatusMessage | MyWebSite.Web/Controllers/HomeController.cs:61-67 | the generic message is chosen iff the code is not 403, 404 or 500 |
| HomeController.KnownCodesDistinguished | MyWebSite.Web/Controllers/HomeController.cs:61-67 | each of 403, 404 and 500 has a message no other code gets |
| HomeController.NotFound | MyWebSite.Web/Controllers/HomeController.cs:57-75 | the page shows the code from the route, or the response's code when none is given, with that code's message |
| ContactController.Index | MyWebSite.Web/Controllers/ContactController.cs:24-41 | a failed binding or validation shows the form and changes nothing; a taken Id is a server error; otherwise the stamped message is saved and the user redirected |
| ContactController.SaveMessage | MyWebSite.Web/Controllers/ContactController.cs:33-40 | the message is added with a fresh Id and CreatedAt and saved |
| ContactController.SubmissionKeepsInbox | MyWebSite.Web/Controllers/ContactController.cs:33-34 | a submission keeps every existing message and adds exactly its own Id to the unread set |
| Linq.Where | MyWebSite.Web/Controllers/ResumeController.cs:26-27 | the result is a sub-multiset of the input holding exactly the elements that satisfy the predicate |
| Linq.WhereAppend | MyWebSite.Web/Controllers/ResumeController.cs:26-27 | filtering a concatenation concatenates the filtered parts, so the matches keep their input order and multiplicity |
| Linq.WhereTies | MyWebSite.Web/Controllers/ResumeController.cs:26-29 | the tied elements of a filtered sequence are the filtered tied elements of the input, in input order |
| Linq.Insert | MyWebSite.Web/Controllers/ResumeController.cs:28-29 | inserting adds exactly one element |
| Linq.OrderedWhere | MyWebSite.Web/Controllers/ResumeController.cs:26-29 | `Where` then `OrderBy` gives a sorted sub-multiset of the input holding exactly the elements that satisfy the predicate |
| Linq.Sort | MyWebSite.Web/Controllers/ResumeController.cs:28-29 | sorting is a permutation of its input |
| Linq.InsertSorted | MyWebSite.Web/Controllers/ResumeController.cs:28-29 | inserting into a sorted sequence keeps it sorted |
| Linq.SortSorted | MyWebSite.Web/Controllers/ResumeController.cs:26-52 | under a strict weak order the sorted sequence is sorted |
| Linq.InsertTies | MyWebSite.Web/Controllers/ResumeController.cs:28-29 | inserting keeps the relative order of equal-ranked elements |
| Linq.SortStable | MyWebSite.Web/Controllers/ResumeController.cs:26-52 | sorting keeps the input order among elements ranked equal |
| Listings.CountsOfNoDuplicates | MyWebSite.Data/Repositories/GenericRepository.cs:30-41 | a sequence without duplicates holds each element at most once as a multiset |
| Listings.NoDuplicatesOfCounts | MyWebSite.Data/Repositories/GenericRepository.cs:30-41 | a sequence whose multiset holds each element at most once has no duplicates |
| Listings.DistinctIdsIffNoDuplicates | MyWebSite.Data/Repositories/GenericRepository.cs:30-41 | for stored rows, distinct Ids and no duplicate rows are the same thing |
| Listings.WhereLists | MyWebSite.Web/Controllers/ResumeController.cs:26-52 | filtering a full listing lists exactly the visible rows satisfying the filter |
| Listings.PermutedLists | MyWebSite.Web/Areas/Admin/Controllers/ContactMessagesController.cs:22-24 | reordering a listing is still a listing of the same rows |
| Listings.SortLists | MyWebSite.Web/Areas/Admin/Controllers/ContactMessagesController.cs:22-24 | sorting a listing keeps it a listing and makes it sorted |
| ResumeController.ResumeOrderIsStrictWeak | MyWebSite.Web/Controllers/ResumeController.cs:28-29 | DisplayOrder descending then StartDate descending is a strict weak order |
| ResumeController.SkillOrdersAreStrictWeak | MyWebSite.Web/Controllers/ResumeController.cs:45-51 | DisplayOrder descending and DisplayOrder ascending are strict weak orders |
| ResumeController.Index | MyWebSite.Web/Controllers/ResumeController.cs:20-64 | each list holds, as a sub-multiset of its listing, exactly the rows of its kind (Experience, Education, ProfessionalSkills, Languages), sorted by DisplayOrder descending then StartDate descending for items, descending DisplayOrder for professional skills and ascending for languages |
| ResumeController.IndexLists | MyWebSite.Web/Controllers/ResumeController.cs:20-64 | each of the four lists holds exactly the visible items or skills of its kind, once each, in its order |
| ResumeController.UndatedLast | MyWebSite.Web/Controllers/ResumeController.cs:26-37 | experience and education run by DisplayOrder descending, and among equal orders no undated item comes before a dated one |
| ResumeController.TiesKeepListingOrder | MyWebSite.Web/Controllers/ResumeController.cs:26-52 | in each list, the items or skills ranked equal to a given one are the repository listing's equal-ranked entries of that kind, in listing order |
| Identity.PasswordErrors | MyWebSite.Web/Program.cs:33-37 | each policy error is reported iff its rule is broken (white space only or shorter than 8, no non-alphanumeric, no digit, no lower-case, no upper-case); no error iff all rules hold |
| Identity.UserErrors | MyWebSite.Web/Program.cs:40 | no error iff the user name is non-empty, uses allowed characters and is not taken, and the e-mail is present, well formed and not taken |
| Identity.CreateErrors | MyWebSite.Web/Program.cs:33-40 | creation is refused iff the password or the user fails a rule |
| Identity.IdentityStore.constructor | MyWebSite.Data/Seed/DataSeeder.cs:19-29 | the store starts in the given state |
| Identity.IdentityStore.RoleExists | MyWebSite.Data/Seed/DataSeeder.cs:34 | true iff the role is stored |
| Identity.IdentityStore.CreateRole | MyWebSite.Data/Seed/DataSeeder.cs:36-37 | a new role is appended and succeeds; an existing one is refused; users and assignments are unchanged |
| Identity.IdentityStore.FindByEmail | MyWebSite.Data/Seed/DataSeeder.cs:50 | finds a stored user with that e-mail iff one exists |
| Identity.IdentityStore.CreateUser | MyWebSite.Data/Seed/DataSeeder.cs:65 | the errors are the policy and user checks against the stored users; the user is appended iff there are none |
| Identity.IdentityStore.AddToRole | MyWebSite.Data/Seed/DataSeeder.cs:69 | the user-role pair is appended; roles and users are unchanged |
| DataSeeder.DataSeeder.constructor | MyWebSite.Data/Seed/DataSeeder.cs:19-29 | the seeder keeps its store, configuration and environment |
| DataSeeder.Seed | MyWebSite.Data/Seed/DataSeeder.cs:31-78 | the role first, then the two settings in order, then find-or-create the admin and add it to the role; every run leaves the Admin role in place, adds at most one user after the existing ones, and a failed run writes no user and no role membership |
| DataSeeder.DataSeeder.SeedAsync | MyWebSite.Data/Seed/DataSeeder.cs:31-78 | the store ends in, and the outcome is, what the seeding specification gives for the starting state |
| DataSeeder.DefaultPasswordMeetsPolicy | MyWebSite.Data/Seed/DataSeeder.cs:48 | the development password `Admin123!` satisfies the configured policy |
| DataSeeder.DefaultEmailWellFormed | MyWebSite.Data/Seed/DataSeeder.cs:44 | the development address `admin@admin.com` is a valid user name and e-mail |
| DataSeeder.DefaultAdminAccepted | MyWebSite.Data/Seed/DataSeeder.cs:55-65 | the development admin passes the user checks when its name and address are free |
| DataSeeder.AdminRoleEnsured | MyWebSite.Data/Seed/DataSeeder.cs:34-38 | after seeding the Admin role exists, added once only if it was missing |
| DataSeeder.ProductionNeedsSettings | MyWebSite.Data/Seed/DataSeeder.cs:42-48 | in production a missing address or password fails with that setting's message (the address is checked first) and creates no user |
| DataSeeder.CreatesAdmin | MyWebSite.Data/Seed/DataSeeder.cs:50-70 | when the address is free and the account passes the rules, the admin is created and put in the Admin role |
| DataSeeder.DevelopmentDefaults | MyWebSite.Data/Seed/DataSeeder.cs:42-70 | in development with no settings and a free default address, seeding succeeds and creates `admin@admin.com` in the Admin role |
| DataSeeder.ExistingUserUntouched | MyWebSite.Data/Seed/DataSeeder.cs:50-53 | if a user with the address exists, seeding succeeds without touching users or assignments |
| DataSeeder.CreatedAdminShape | MyWebSite.Data/Seed/DataSeeder.cs:55-63 | a user that seeding creates has the address as user name and e-mail, a confirmed e-mail and the name Admin User |
| DataSeeder.FailureAssignsNoRole | MyWebSite.Data/Seed/DataSeeder.cs:71-76 | a failed seeding leaves users and role assignments as they were |
| DataSeeder.SeedIdempotent | MyWebSite.Data/Seed/DataSeeder.cs:31-78 | seeding a second time after a success changes nothing and succeeds again |

## Left out

- Asynchrony, request concurrency and the database engine are not modelled: each action runs alone on one session, and the database is the `saved` maps.
- Rollback of a transaction does not undo saved rows: the transaction is a state machine only, and the rows `SaveChanges` wrote stay in `saved`.
- DataContext.ApplicationDbContext.SaveChanges: the count it returns is value-based, the number of rows whose stored value differs from the session's. EF also writes and counts a row that `Update` marked Modified with unchanged values, for example `MarkAsRead` on a message already read at the same clock value, or a second soft delete of a row in an unfiltered set at the same time. No modelled action uses the count, and the rows stored afterwards are the same either way.
- UnitOfWork.UnitOfWork.SaveChanges forwards that value-based count, so it differs from EF's in the same cases.
- The EF Core change tracker is modelled as a second map (`staged`), not as object identity. A tracked row that was soft-deleted in the same session is treated as hidden by `GetById`, while EF's `Find` would return it from the tracker.
- Repository.GenericRepository.GetAll, Repository.GenericRepository.Find and Repository.GenericRepository.Any read the session's rows (`staged`), while EF sends these queries to the database: on a session with unsaved changes EF would leave out rows added but not saved and still return rows removed but not saved. The actions modelled never query after staging a change, so for them the two agree.
- Adding an entity whose key is already tracked is a duplicate-key server error at `Add`; EF raises it at `Add` or at `SaveChanges` depending on where the clash is found.
- Files are not written or deleted: the upload's bytes, the `images/projects` folder and the old image file on Edit are left out. Only the URL stored in the database is modelled.
- Text is modelled as sequences of characters: `ToLowerInvariant` lower-cases ASCII letters only, a length counts characters rather than UTF-16 units, and a null string is the empty string.
- ImageUpload.GuidToString: prints the Guid's 128-bit value as 32 hex digits in big-endian order. The byte order .NET uses inside the first three groups is not modelled; only injectivity and the layout matter here.
- The operating system's path separators and invalid file-name characters are a `Platform` parameter; `Unix` is the only platform instantiated.
- `ModelState.IsValid` is a parameter for everything except the contact validator's own rules, which are modelled.
- Identity is modelled only as far as the seeder uses it. Normalised names, security stamps, error descriptions, lockout and sign-in, and the unique-characters rule (Identity's default of 1, met by any non-empty password) are left out. Identity.IdentityStore.FindByEmail compares addresses exactly, not by their normalised form.
- DataSeeder.SeedAsync: the `InvalidOperationException`s are `Failure` outcomes, and the failure message that joins Identity's error descriptions is the list of errors itself.
- In `Program.cs` the seeder is constructed with two arguments while its constructor takes four; the model follows the four-argument constructor of `DataSeeder.cs`.
- The GET actions that only show a page (the Create forms, Edit and Delete confirmation views, the admin Index listings of projects, resume items and skills) are left out; they read one row or one listing exactly as `GetById` and `GetAll` do.
- `HomeController.Error`, `Privacy` and `Test404`, the `AccountController` (login and logout through Identity's sign-in manager) and the public `ProjectController` are not part of this model.
- Logging, `TempData` messages, anti-forgery tokens, authorization attributes and the start-up wiring in `Program.cs` (services, middleware, routes) are left out.
