/** The resume record the application stores and edits. */
module Types {
  import opened Wrappers

  /**
   * A point in time as milliseconds since the epoch. The application writes
   * these as `toISOString()` text and reads them back with `new Date(...)`,
   * which gives the same millisecond count back.
   */
  type Instant = int

  datatype BasicInfo = BasicInfo(name: string, email: string, phone: string)

  datatype Project = Project(title: string, description: string, technologies: seq<string>)

  datatype Education = Education(
    tenthMarks: string,
    twelfthMarks: string,
    collegeName: string,
    cgpa: string)

  datatype Resume = Resume(
    id: string,
    userId: string,
    title: string,
    basicInfo: BasicInfo,
    skills: seq<string>,
    targetJobRole: string,
    projects: seq<Project>,
    certifications: seq<string>,
    education: Education,
    createdAt: Instant,
    updatedAt: Instant,
    atsScore: Option<int>)

  /** A resume without the fields the store assigns (`id`, `userId`, `createdAt`, `updatedAt`). */
  datatype ResumeData = ResumeData(
    title: string,
    basicInfo: BasicInfo,
    skills: seq<string>,
    targetJobRole: string,
    projects: seq<Project>,
    certifications: seq<string>,
    education: Education,
    atsScore: Option<int>)

  /** `Partial<Resume>`: each present field replaces the stored one. */
  datatype ResumePatch = ResumePatch(
    id: Option<string>,
    userId: Option<string>,
    title: Option<string>,
    basicInfo: Option<BasicInfo>,
    skills: Option<seq<string>>,
    targetJobRole: Option<string>,
    projects: Option<seq<Project>>,
    certifications: Option<seq<string>>,
    education: Option<Education>,
    createdAt: Option<Instant>,
    updatedAt: Option<Instant>,
    atsScore: Option<int>)

  /** The patch that only sets the ATS score. */
  function ScorePatch(score: int): ResumePatch {
    ResumePatch(None, None, None, None, None, None, None, None, None, None, None, Some(score))
  }
}
