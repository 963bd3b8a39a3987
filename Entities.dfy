/**
 * The entity model: every stored row carries the shared BaseEntity columns
 * (Id, CreatedAt, UpdatedDate, IsDeleted) around a kind-specific payload.
 */
module Entities {
  import opened Wrappers

  /** A 128-bit identifier; 0 stands for `Guid.Empty`. */
  const GuidBound: int := 0x1_0000_0000_0000_0000_0000_0000_0000_0000
  type Guid = g: int | 0 <= g < GuidBound
  const EmptyGuid: Guid := 0

  /** A point in time, as a tick count; only equality and order matter here. */
  type DateTime = int

  /** A row of any entity table: the BaseEntity columns plus the entity's own fields. */
  datatype Entity<T> = Entity(
    id: Guid,
    createdAt: DateTime,
    updatedDate: Option<DateTime>,
    isDeleted: bool,
    fields: T)

  /**
   * Whether the default query path returns a row.  `filtered` says whether the
   * entity kind has the `!IsDeleted` query filter configured.
   */
  predicate Visible<T>(e: Entity<T>, filtered: bool) {
    !filtered || !e.isDeleted
  }

  datatype ProjectFields = ProjectFields(
    title: string,
    description: string,
    imageUrl: Option<string>,
    technologies: Option<string>,
    gitHubUrl: Option<string>,
    liveUrl: Option<string>,
    isFeatured: bool)

  datatype ContactMessageFields = ContactMessageFields(
    name: string,
    email: string,
    subject: string,
    message: string,
    isRead: bool)

  /** A C# enum holds any integer; the named members come first. */
  datatype ResumeItemType = Experience | Education | OtherItemType(code: int)

  datatype ResumeItemFields = ResumeItemFields(
    title: string,
    companyOrInstitution: string,
    location: string,
    startDate: Option<DateTime>,
    endDate: Option<DateTime>,
    description: string,
    displayOrder: int,
    itemType: ResumeItemType)

  datatype SkillCategory = ProfessionalSkills | Languages | OtherCategory(code: int)

  datatype SkillFields = SkillFields(
    name: string,
    category: SkillCategory,
    displayOrder: int)

  datatype AboutMeFields = AboutMeFields(
    title: string,
    shortDescription: string,
    fullDescription: string,
    twitterUrl: Option<string>,
    linkedInUrl: Option<string>,
    gitHubUrl: Option<string>)

  /** The predicates the site's queries filter on. */
  predicate IsFeatured(p: Entity<ProjectFields>) { p.fields.isFeatured }
  predicate IsUnread(m: Entity<ContactMessageFields>) { !m.fields.isRead }

  type Project = Entity<ProjectFields>
  type ContactMessage = Entity<ContactMessageFields>
  type ResumeItem = Entity<ResumeItemFields>
  type Skill = Entity<SkillFields>
  type AboutMe = Entity<AboutMeFields>
}
