/**
 * The public resume page: the resume items and skills the repository lists,
 * split by kind and ordered for display.
 */
module ResumeController {
  import opened Wrappers
  import opened Entities
  import opened Repository
  import opened Linq
  import opened Listings

  datatype ResumeView = ResumeView(
    experience: seq<ResumeItem>,
    educations: seq<ResumeItem>,
    professionalSkills: seq<Skill>,
    languages: seq<Skill>)

  predicate IsExperience(r: ResumeItem) { r.fields.itemType == Experience }
  predicate IsEducation(r: ResumeItem) { r.fields.itemType == Education }
  predicate IsProfessional(s: Skill) { s.fields.category == ProfessionalSkills }
  predicate IsLanguage(s: Skill) { s.fields.category == Languages }

  /**
   * `ThenByDescending` on a nullable date: the later date first, and a
   * missing date (which compares below every date) last.
   */
  predicate LaterStart(a: Option<DateTime>, b: Option<DateTime>) {
    match (a, b)
    case (Some(x), Some(y)) => x > y
    case (Some(_), None) => true
    case _ => false
  }

  /** `OrderByDescending(DisplayOrder).ThenByDescending(StartDate)`. */
  predicate ResumeBefore(a: ResumeItem, b: ResumeItem) {
    || a.fields.displayOrder > b.fields.displayOrder
    || (a.fields.displayOrder == b.fields.displayOrder && LaterStart(a.fields.startDate, b.fields.startDate))
  }

  /** `OrderByDescending(DisplayOrder)`. */
  predicate HigherOrder(a: Skill, b: Skill) {
    a.fields.displayOrder > b.fields.displayOrder
  }

  /** `OrderBy(DisplayOrder)`. */
  predicate LowerOrder(a: Skill, b: Skill) {
    a.fields.displayOrder < b.fields.displayOrder
  }

  /** Index: the view model built from the two listings. */
  function Index(allResumeItems: seq<ResumeItem>, allSkills: seq<Skill>): (r: ResumeView)
    ensures multiset(r.experience) <= multiset(allResumeItems)
    ensures multiset(r.educations) <= multiset(allResumeItems)
    ensures multiset(r.professionalSkills) <= multiset(allSkills)
    ensures multiset(r.languages) <= multiset(allSkills)
    ensures forall x :: x in r.experience <==> x in allResumeItems && IsExperience(x)
    ensures forall x :: x in r.educations <==> x in allResumeItems && IsEducation(x)
    ensures forall x :: x in r.professionalSkills <==> x in allSkills && IsProfessional(x)
    ensures forall x :: x in r.languages <==> x in allSkills && IsLanguage(x)
    ensures Sorted(r.experience, ResumeBefore) && Sorted(r.educations, ResumeBefore)
    ensures Sorted(r.professionalSkills, HigherOrder) && Sorted(r.languages, LowerOrder)
  {
    ResumeOrderIsStrictWeak();
    SkillOrdersAreStrictWeak();
    OrderedWhere(allResumeItems, IsExperience, ResumeBefore);
    OrderedWhere(allResumeItems, IsEducation, ResumeBefore);
    OrderedWhere(allSkills, IsProfessional, HigherOrder);
    OrderedWhere(allSkills, IsLanguage, LowerOrder);
    ResumeView(
      Sort(Where(allResumeItems, IsExperience), ResumeBefore),
      Sort(Where(allResumeItems, IsEducation), ResumeBefore),
      Sort(Where(allSkills, IsProfessional), HigherOrder),
      Sort(Where(allSkills, IsLanguage), LowerOrder))
  }

  lemma ResumeOrderIsStrictWeak()
    ensures StrictWeakOrder(ResumeBefore)
  {
    forall a: ResumeItem, b: ResumeItem, c: ResumeItem | !ResumeBefore(a, b) && !ResumeBefore(b, c)
      ensures !ResumeBefore(a, c)
    {
      if a.fields.displayOrder == c.fields.displayOrder {
        assert a.fields.displayOrder == b.fields.displayOrder;
      }
    }
  }

  lemma SkillOrdersAreStrictWeak()
    ensures StrictWeakOrder(HigherOrder)
    ensures StrictWeakOrder(LowerOrder)
  {
  }

  /**
   * Each list holds exactly the visible rows of its kind, each once, in
   * display order; skills of any other category appear in neither list.
   */
  lemma {:induction false} IndexLists(allResumeItems: seq<ResumeItem>, items: map<Guid, ResumeItem>, itemsFiltered: bool,
                                      allSkills: seq<Skill>, skills: map<Guid, Skill>, skillsFiltered: bool)
    requires Lists(allResumeItems, items, itemsFiltered, All)
    requires Lists(allSkills, skills, skillsFiltered, All)
    ensures var v := Index(allResumeItems, allSkills);
      && Lists(v.experience, items, itemsFiltered, IsExperience)
      && Lists(v.educations, items, itemsFiltered, IsEducation)
      && Lists(v.professionalSkills, skills, skillsFiltered, IsProfessional)
      && Lists(v.languages, skills, skillsFiltered, IsLanguage)
    ensures var v := Index(allResumeItems, allSkills);
      && Sorted(v.experience, ResumeBefore) && Sorted(v.educations, ResumeBefore)
      && Sorted(v.professionalSkills, HigherOrder) && Sorted(v.languages, LowerOrder)
  {
    ResumeOrderIsStrictWeak();
    SkillOrdersAreStrictWeak();
    WhereLists(allResumeItems, items, itemsFiltered, IsExperience);
    SortLists(Where(allResumeItems, IsExperience), items, itemsFiltered, IsExperience, ResumeBefore);
    WhereLists(allResumeItems, items, itemsFiltered, IsEducation);
    SortLists(Where(allResumeItems, IsEducation), items, itemsFiltered, IsEducation, ResumeBefore);
    WhereLists(allSkills, skills, skillsFiltered, IsProfessional);
    SortLists(Where(allSkills, IsProfessional), skills, skillsFiltered, IsProfessional, HigherOrder);
    WhereLists(allSkills, skills, skillsFiltered, IsLanguage);
    SortLists(Where(allSkills, IsLanguage), skills, skillsFiltered, IsLanguage, LowerOrder);
  }

  /**
   * In both resume lists a higher DisplayOrder comes first, and among equal
   * orders an item without a start date never precedes one with a date.
   */
  lemma UndatedLast(allResumeItems: seq<ResumeItem>, allSkills: seq<Skill>)
    ensures var xs := Index(allResumeItems, allSkills).experience;
      forall i, j :: 0 <= i < j < |xs| ==>
        && xs[i].fields.displayOrder >= xs[j].fields.displayOrder
        && (xs[i].fields.displayOrder == xs[j].fields.displayOrder && xs[j].fields.startDate.Some?
            ==> xs[i].fields.startDate.Some?)
    ensures var xs := Index(allResumeItems, allSkills).educations;
      forall i, j :: 0 <= i < j < |xs| ==>
        && xs[i].fields.displayOrder >= xs[j].fields.displayOrder
        && (xs[i].fields.displayOrder == xs[j].fields.displayOrder && xs[j].fields.startDate.Some?
            ==> xs[i].fields.startDate.Some?)
  {
    ResumeOrderIsStrictWeak();
    SortSorted(Where(allResumeItems, IsExperience), ResumeBefore);
    SortSorted(Where(allResumeItems, IsEducation), ResumeBefore);
  }

  /**
   * Items tied on DisplayOrder (and StartDate) appear in the order the
   * repository listed them: the ties of each list are the listing's ties of
   * that kind, in listing order.
   */
  lemma TiesKeepListingOrder(allResumeItems: seq<ResumeItem>, allSkills: seq<Skill>, k: ResumeItem, s: Skill)
    ensures Ties(Index(allResumeItems, allSkills).experience, k, ResumeBefore)
         == Where(Ties(allResumeItems, k, ResumeBefore), IsExperience)
    ensures Ties(Index(allResumeItems, allSkills).educations, k, ResumeBefore)
         == Where(Ties(allResumeItems, k, ResumeBefore), IsEducation)
    ensures Ties(Index(allResumeItems, allSkills).professionalSkills, s, HigherOrder)
         == Where(Ties(allSkills, s, HigherOrder), IsProfessional)
    ensures Ties(Index(allResumeItems, allSkills).languages, s, LowerOrder)
         == Where(Ties(allSkills, s, LowerOrder), IsLanguage)
  {
    ResumeOrderIsStrictWeak();
    SkillOrdersAreStrictWeak();
    SortStable(Where(allResumeItems, IsExperience), k, ResumeBefore);
    WhereTies(allResumeItems, IsExperience, k, ResumeBefore);
    SortStable(Where(allResumeItems, IsEducation), k, ResumeBefore);
    WhereTies(allResumeItems, IsEducation, k, ResumeBefore);
    SortStable(Where(allSkills, IsProfessional), s, HigherOrder);
    WhereTies(allSkills, IsProfessional, s, HigherOrder);
    SortStable(Where(allSkills, IsLanguage), s, LowerOrder);
    WhereTies(allSkills, IsLanguage, s, LowerOrder);
  }
}
