/**
 * The "create resume" form: list editing (add an empty entry, remove an entry
 * by position, change one entry) and the submit step, which drops blank
 * entries and saves the result through the resume hook.
 */
module CreateResume {
  import opened Wrappers
  import opened Types
  import opened Strings
  import opened Seqs
  import opened Toasts
  import opened ResumeStore

  // ---------------------------------------------------------------------------
  // What the submit step saves
  // ---------------------------------------------------------------------------

  /** `s.filter(x => x.trim())`: the entries that are not blank, unchanged and in order. */
  function Filled(s: seq<string>): (r: seq<string>)
    ensures |r| <= |s|
    ensures forall x :: x in r <==> x in s && !IsBlank(x)
  {
    Filter(s, (x: string) => !IsBlank(x))
  }

  /** Cleaning is idempotent: a saved list of entries is cleaned to itself. */
  lemma FilledIdempotent(s: seq<string>)
    ensures Filled(Filled(s)) == Filled(s)
  {
    FilterAbsorbs(s, (x: string) => !IsBlank(x), (x: string) => !IsBlank(x));
  }

  /** Cleaning keeps the order: around any one entry, the cleaned entries before it, the entry iff it is filled, the cleaned entries after it. */
  lemma FilledInOrder(before: seq<string>, x: string, after: seq<string>)
    ensures Filled(before + [x] + after) == Filled(before) + (if IsBlank(x) then [] else [x]) + Filled(after)
  {
    FilterAround(before, x, after, (x: string) => !IsBlank(x));
  }

  /** A project with its blank technologies dropped; title and description are kept as typed. */
  function CleanProject(p: Project): (q: Project)
    ensures q.title == p.title && q.description == p.description
    ensures forall t :: t in q.technologies <==> t in p.technologies && !IsBlank(t)
  {
    p.(technologies := Filled(p.technologies))
  }

  /** `ps.map(CleanProject)`. */
  function CleanedEach(ps: seq<Project>): (r: seq<Project>)
    ensures |r| == |ps| && forall i :: 0 <= i < |ps| ==> r[i] == CleanProject(ps[i])
  {
    seq(|ps|, i requires 0 <= i < |ps| => CleanProject(ps[i]))
  }

  /** Cleaning each project keeps the order of the projects. */
  lemma CleanedEachAround(before: seq<Project>, p: Project, after: seq<Project>)
    ensures CleanedEach(before + [p] + after) == CleanedEach(before) + [CleanProject(p)] + CleanedEach(after)
  {
    var ps := before + [p] + after;
    var rs := CleanedEach(before) + [CleanProject(p)] + CleanedEach(after);
    forall i | 0 <= i < |ps|
      ensures CleanedEach(ps)[i] == rs[i]
    {
      if i < |before| {
        assert ps[i] == before[i];
      } else if i == |before| {
        assert ps[i] == p;
      } else {
        assert ps[i] == after[i - |before| - 1];
      }
    }
  }

  /** Every project cleaned, then the projects with a blank title dropped. */
  function CleanProjects(ps: seq<Project>): (r: seq<Project>)
    ensures |r| <= |ps|
    ensures forall q :: q in r ==> !IsBlank(q.title) && exists p :: p in ps && q == CleanProject(p)
    ensures forall p :: p in ps && !IsBlank(p.title) ==> CleanProject(p) in r
  {
    var cleaned := CleanedEach(ps);
    assert forall p :: p in ps ==> CleanProject(p) in cleaned by {
      forall p | p in ps
        ensures CleanProject(p) in cleaned
      {
        var i :| 0 <= i < |ps| && ps[i] == p;
        assert cleaned[i] == CleanProject(p);
      }
    }
    Filter(cleaned, (q: Project) => !IsBlank(q.title))
  }

  /** Projects keep their order: around any one project, the saved projects before it, the cleaned project iff it has a title, the saved projects after it. */
  lemma CleanProjectsInOrder(before: seq<Project>, p: Project, after: seq<Project>)
    ensures CleanProjects(before + [p] + after)
      == CleanProjects(before) + (if IsBlank(p.title) then [] else [CleanProject(p)]) + CleanProjects(after)
  {
    CleanedEachAround(before, p, after);
    FilterAround(CleanedEach(before), CleanProject(p), CleanedEach(after), (q: Project) => !IsBlank(q.title));
  }

  /** Every saved project has a title and only non-blank technologies. */
  lemma SavedProjectsFilled(ps: seq<Project>)
    ensures forall q :: q in CleanProjects(ps) ==> !IsBlank(q.title) && forall t :: t in q.technologies ==> !IsBlank(t)
  {
    forall q | q in CleanProjects(ps)
      ensures forall t :: t in q.technologies ==> !IsBlank(t)
    {
      var p :| p in ps && q == CleanProject(p);
    }
  }

  const TitleRequired := Failure("Title required", "Please enter a title for your resume.")
  const ResumeCreated := Success("Resume created!", "Your resume has been saved successfully.")

  class CreateResumeForm {
    const hook: ResumesHook
    var title: string
    var basicInfo: BasicInfo
    var skills: seq<string>
    var targetJobRole: string
    var projects: seq<Project>
    var certifications: seq<string>
    var education: Education

    /** The empty form: one blank skill, one blank project with one blank technology, one blank certification. */
    constructor (hook: ResumesHook)
      ensures this.hook == hook && title == "" && basicInfo == BasicInfo("", "", "") && targetJobRole == ""
      ensures skills == [""] && projects == [Project("", "", [""])] && certifications == [""]
      ensures education == Education("", "", "", "")
    {
      this.hook := hook;
      title := "";
      basicInfo := BasicInfo("", "", "");
      skills := [""];
      targetJobRole := "";
      projects := [Project("", "", [""])];
      certifications := [""];
      education := Education("", "", "", "");
    }

    method AddSkill()
      modifies this`skills
      ensures skills == old(skills) + [""]
    {
      skills := skills + [""];
    }

    method RemoveSkill(index: int)
      modifies this`skills
      ensures skills == RemoveAt(old(skills), index)
    {
      skills := RemoveAt(skills, index);
    }

    /** Replace one skill; the form only offers positions of existing entries. */
    method UpdateSkill(index: nat, value: string)
      requires index < |skills|
      modifies this`skills
      ensures skills == old(skills)[index := value]
    {
      skills := skills[index := value];
    }

    method AddProject()
      modifies this`projects
      ensures projects == old(projects) + [Project("", "", [""])]
    {
      projects := projects + [Project("", "", [""])];
    }

    method RemoveProject(index: int)
      modifies this`projects
      ensures projects == RemoveAt(old(projects), index)
    {
      projects := RemoveAt(projects, index);
    }

    /** Give one project another, empty, technology entry. */
    method AddTechnology(projectIndex: nat)
      requires projectIndex < |projects|
      modifies this`projects
      ensures |projects| == |old(projects)|
      ensures projects[projectIndex].technologies == old(projects)[projectIndex].technologies + [""]
      ensures projects[projectIndex].title == old(projects)[projectIndex].title
      ensures projects[projectIndex].description == old(projects)[projectIndex].description
      ensures forall j :: 0 <= j < |projects| && j != projectIndex ==> projects[j] == old(projects)[j]
    {
      var p := projects[projectIndex];
      projects := projects[projectIndex := p.(technologies := p.technologies + [""])];
    }

    /** Remove one technology entry of one project. */
    method RemoveTechnology(projectIndex: nat, techIndex: int)
      requires projectIndex < |projects|
      modifies this`projects
      ensures |projects| == |old(projects)|
      ensures projects[projectIndex].technologies == RemoveAt(old(projects)[projectIndex].technologies, techIndex)
      ensures projects[projectIndex].title == old(projects)[projectIndex].title
      ensures projects[projectIndex].description == old(projects)[projectIndex].description
      ensures forall j :: 0 <= j < |projects| && j != projectIndex ==> projects[j] == old(projects)[j]
    {
      var p := projects[projectIndex];
      projects := projects[projectIndex := p.(technologies := RemoveAt(p.technologies, techIndex))];
    }

    method AddCertification()
      modifies this`certifications
      ensures certifications == old(certifications) + [""]
    {
      certifications := certifications + [""];
    }

    method RemoveCertification(index: int)
      modifies this`certifications
      ensures certifications == RemoveAt(old(certifications), index)
    {
      certifications := RemoveAt(certifications, index);
    }

    /** The record the form submits: the fields as typed, with blank entries dropped and no ATS score. */
    function Submission(): (d: ResumeData)
      reads this
      ensures d.title == title && d.basicInfo == basicInfo && d.targetJobRole == targetJobRole && d.education == education
      ensures forall x :: x in d.skills <==> x in skills && !IsBlank(x)
      ensures forall x :: x in d.certifications <==> x in certifications && !IsBlank(x)
      ensures forall q :: q in d.projects ==> !IsBlank(q.title) && exists p :: p in projects && q == CleanProject(p)
      ensures forall p :: p in projects && !IsBlank(p.title) ==> CleanProject(p) in d.projects
      ensures d.atsScore == None
      ensures d.skills == Filled(skills) && d.certifications == Filled(certifications) && d.projects == CleanProjects(projects)
    {
      ResumeData(title, basicInfo, Filled(skills), targetJobRole, CleanProjects(projects), Filled(certifications), education, None)
    }

    /**
     * `handleSubmit`: refuse a blank title, otherwise save the cleaned form
     * through the hook; `id` and `now` stand for the current time.
     */
    method HandleSubmit(id: string, now: Instant) returns (notice: Option<Notice>)
      modifies hook`resumes, hook.auth.storage`resumes
      ensures IsBlank(title) ==>
        notice == Some(TitleRequired) && hook.resumes == old(hook.resumes) && hook.auth.storage.resumes == old(hook.auth.storage.resumes)
      ensures !IsBlank(title) && hook.auth.user.None? ==>
        notice == None && hook.resumes == old(hook.resumes) && hook.auth.storage.resumes == old(hook.auth.storage.resumes)
      ensures !IsBlank(title) && hook.auth.user.Some? ==>
        var saved := NewResume(Submission(), id, hook.auth.user.value.id, now);
        && notice == Some(ResumeCreated)
        && hook.auth.storage.resumes == old(hook.auth.storage.resumes) + [saved]
        && hook.resumes == old(hook.resumes) + [saved]
    {
      if IsBlank(title) {
        return Some(TitleRequired);
      }
      var newResume := hook.SaveResume(Submission(), id, now);
      if newResume.Some? {
        return Some(ResumeCreated);
      }
      return None;
    }
  }
}
