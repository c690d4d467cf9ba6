/**
 * The resume hook: every user's resumes live in one stored list; the hook
 * keeps the signed-in user's share of it in memory and saves, updates and
 * deletes entries on that user's behalf.
 */
module ResumeStore {
  import opened Wrappers
  import opened Types
  import opened Seqs
  import opened LocalStore
  import opened Auth

  /** The stored resumes owned by `userId`, in stored order. */
  function OwnedBy(all: seq<Resume>, userId: string): (r: seq<Resume>)
    ensures forall x :: x in r <==> x in all && x.userId == userId
    ensures |r| <= |all|
  {
    Filter(all, (x: Resume) => x.userId == userId)
  }

  /** The record `saveResume` builds: the form data, a new id, the owner and one time for both stamps. */
  function NewResume(data: ResumeData, id: string, userId: string, now: Instant): (r: Resume)
    ensures r.id == id && r.userId == userId && r.createdAt == now && r.updatedAt == now
    ensures r.title == data.title && r.basicInfo == data.basicInfo && r.skills == data.skills
    ensures r.targetJobRole == data.targetJobRole && r.projects == data.projects
    ensures r.certifications == data.certifications && r.education == data.education
    ensures r.atsScore == data.atsScore
  {
    Resume(id, userId, data.title, data.basicInfo, data.skills, data.targetJobRole, data.projects,
           data.certifications, data.education, now, now, data.atsScore)
  }

  /** The first stored resume with this id that `userId` owns. */
  function FindOwned(all: seq<Resume>, id: string, userId: string): (r: Option<nat>)
    ensures r.Some? ==> r.value < |all| && all[r.value].id == id && all[r.value].userId == userId
    ensures r.Some? ==> forall j :: 0 <= j < r.value ==> !(all[j].id == id && all[j].userId == userId)
    ensures r.None? <==> forall j :: 0 <= j < |all| ==> !(all[j].id == id && all[j].userId == userId)
  {
    IndexWhere(all, (x: Resume) => x.id == id && x.userId == userId)
  }

  /** `{ ...stored, ...patch, updatedAt: now }`: present fields win, and the update time is always `now`. */
  function Patched(r: Resume, p: ResumePatch, now: Instant): (u: Resume)
    ensures u.updatedAt == now
    ensures u.id == p.id.GetOr(r.id) && u.userId == p.userId.GetOr(r.userId) && u.title == p.title.GetOr(r.title)
    ensures u.basicInfo == p.basicInfo.GetOr(r.basicInfo) && u.skills == p.skills.GetOr(r.skills)
    ensures u.targetJobRole == p.targetJobRole.GetOr(r.targetJobRole) && u.projects == p.projects.GetOr(r.projects)
    ensures u.certifications == p.certifications.GetOr(r.certifications) && u.education == p.education.GetOr(r.education)
    ensures u.createdAt == p.createdAt.GetOr(r.createdAt)
    ensures u.atsScore == if p.atsScore.Some? then p.atsScore else r.atsScore
  {
    Resume(p.id.GetOr(r.id), p.userId.GetOr(r.userId), p.title.GetOr(r.title), p.basicInfo.GetOr(r.basicInfo),
           p.skills.GetOr(r.skills), p.targetJobRole.GetOr(r.targetJobRole), p.projects.GetOr(r.projects),
           p.certifications.GetOr(r.certifications), p.education.GetOr(r.education), p.createdAt.GetOr(r.createdAt),
           now, if p.atsScore.Some? then p.atsScore else r.atsScore)
  }

  /** The stored list after `updateResume(id, patch)` by `user` at time `now`. */
  function StoreAfterUpdate(all: seq<Resume>, id: string, user: Option<User>, patch: ResumePatch, now: Instant): (r: seq<Resume>)
    ensures |r| == |all|
    ensures user.None? || FindOwned(all, id, user.value.id).None? ==> r == all
    ensures user.Some? && FindOwned(all, id, user.value.id).Some? ==>
      var i := FindOwned(all, id, user.value.id).value;
      r[i] == Patched(all[i], patch, now) && forall j :: 0 <= j < |all| && j != i ==> r[j] == all[j]
  {
    if user.None? then all
    else match FindOwned(all, id, user.value.id)
      case None => all
      case Some(i) => all[i := Patched(all[i], patch, now)]
  }

  /** The hook's loaded list after `updateResume(id, patch)`: every entry with this id becomes the patched stored resume. */
  function LoadedAfterUpdate(loaded: seq<Resume>, all: seq<Resume>, id: string, user: Option<User>, patch: ResumePatch, now: Instant): (r: seq<Resume>)
    ensures |r| == |loaded|
    ensures user.None? || FindOwned(all, id, user.value.id).None? ==> r == loaded
    ensures user.Some? && FindOwned(all, id, user.value.id).Some? ==>
      var i := FindOwned(all, id, user.value.id).value;
      forall j :: 0 <= j < |loaded| ==> r[j] == if loaded[j].id == id then Patched(all[i], patch, now) else loaded[j]
  {
    if user.None? then loaded
    else match FindOwned(all, id, user.value.id)
      case None => loaded
      case Some(i) => ReplaceWithId(loaded, id, Patched(all[i], patch, now))
  }

  /** The stored resumes without those with this id that `userId` owns; other owners keep theirs. */
  function WithoutOwned(all: seq<Resume>, id: string, userId: string): (r: seq<Resume>)
    ensures forall x :: x in r <==> x in all && !(x.id == id && x.userId == userId)
    ensures |r| <= |all|
  {
    Filter(all, (x: Resume) => !(x.id == id && x.userId == userId))
  }

  /** `prev.map(r => r.id === id ? updated : r)`: every entry with this id becomes `updated`. */
  function ReplaceWithId(rs: seq<Resume>, id: string, updated: Resume): (r: seq<Resume>)
    ensures |r| == |rs|
    ensures forall j :: 0 <= j < |rs| ==> r[j] == if rs[j].id == id then updated else rs[j]
  {
    seq(|rs|, j requires 0 <= j < |rs| => if rs[j].id == id then updated else rs[j])
  }

  /** `prev.filter(r => r.id !== id)`. */
  function WithoutId(rs: seq<Resume>, id: string): (r: seq<Resume>)
    ensures forall x :: x in r <==> x in rs && x.id != id
    ensures |r| <= |rs|
  {
    Filter(rs, (x: Resume) => x.id != id)
  }

  /** Saving appends a record of the user's, so the user's share grows by exactly that record at the end. */
  lemma {:induction false} SaveExtendsOwnShare(all: seq<Resume>, r: Resume)
    ensures OwnedBy(all + [r], r.userId) == OwnedBy(all, r.userId) + [r]
  {
    FilterConcat(all, [r], (x: Resume) => x.userId == r.userId);
  }

  /** Saving for one user leaves every other user's share as it was. */
  lemma {:induction false} SaveKeepsOtherShares(all: seq<Resume>, r: Resume, other: string)
    requires other != r.userId
    ensures OwnedBy(all + [r], other) == OwnedBy(all, other)
  {
    FilterConcat(all, [r], (x: Resume) => x.userId == other);
  }

  /** Deleting for one user leaves every other user's share exactly as it was, even entries with the same id. */
  lemma DeleteKeepsOtherShares(all: seq<Resume>, id: string, userId: string, other: string)
    requires other != userId
    ensures OwnedBy(WithoutOwned(all, id, userId), other) == OwnedBy(all, other)
  {
    FilterAbsorbs(all, (x: Resume) => !(x.id == id && x.userId == userId), (x: Resume) => x.userId == other);
  }

  /** Deleting from the loaded share and reloading after deleting from the store give the same list. */
  lemma DeleteKeepsShareInStep(all: seq<Resume>, id: string, userId: string)
    ensures WithoutId(OwnedBy(all, userId), id) == OwnedBy(WithoutOwned(all, id, userId), userId)
  {
    var both := (x: Resume) => x.userId == userId && x.id != id;
    FilterFilter(all, (x: Resume) => x.userId == userId, (x: Resume) => x.id != id, both);
    FilterFilter(all, (x: Resume) => !(x.id == id && x.userId == userId), (x: Resume) => x.userId == userId, both);
  }

  /** An update rewrites exactly the slot it found: that record gets the new time and keeps its owner unless the patch names one. */
  lemma UpdateTouchesOneSlot(all: seq<Resume>, id: string, userId: string, p: ResumePatch, now: Instant)
    requires FindOwned(all, id, userId).Some?
    ensures var i := FindOwned(all, id, userId).value;
      var after := all[i := Patched(all[i], p, now)];
      |after| == |all| && after[i].updatedAt == now
      && (p.userId.None? ==> after[i].userId == userId)
      && forall j :: 0 <= j < |all| && j != i ==> after[j] == all[j]
  {
  }

  /** `k` is the first index of `rs` holding this id. */
  predicate IsFirstWithId(rs: seq<Resume>, id: string, k: int) {
    0 <= k < |rs| && rs[k].id == id && forall j :: 0 <= j < k ==> rs[j].id != id
  }

  class ResumesHook {
    const auth: AuthContext
    /** The signed-in user's resumes as last loaded and then edited. */
    var resumes: seq<Resume>
    var isLoading: bool

    constructor (auth: AuthContext)
      ensures this.auth == auth && resumes == [] && isLoading
    {
      this.auth := auth;
      resumes := [];
      isLoading := true;
    }

    /** Reload the signed-in user's share of the stored list (none when nobody is signed in). */
    method LoadResumes()
      modifies this
      ensures auth.user.None? ==> resumes == []
      ensures auth.user.Some? ==> resumes == OwnedBy(auth.storage.resumes, auth.user.value.id)
      ensures !isLoading
    {
      if auth.user.None? {
        resumes := [];
        isLoading := false;
        return;
      }
      resumes := OwnedBy(auth.storage.resumes, auth.user.value.id);
      isLoading := false;
    }

    /** Append a new resume owned by the signed-in user; `id` and `now` stand for the current time. */
    method SaveResume(data: ResumeData, id: string, now: Instant) returns (saved: Option<Resume>)
      modifies this`resumes, auth.storage`resumes
      ensures auth.user.None? ==> saved == None && resumes == old(resumes) && auth.storage.resumes == old(auth.storage.resumes)
      ensures auth.user.Some? ==> saved == Some(NewResume(data, id, auth.user.value.id, now))
      ensures auth.user.Some? ==> auth.storage.resumes == old(auth.storage.resumes) + [saved.value]
      ensures auth.user.Some? ==> resumes == old(resumes) + [saved.value]
    {
      if auth.user.None? {
        return None;
      }
      var newResume := NewResume(data, id, auth.user.value.id, now);
      auth.storage.resumes := auth.storage.resumes + [newResume];
      resumes := resumes + [newResume];
      return Some(newResume);
    }

    /** Patch the first stored resume with this id that the signed-in user owns. */
    method UpdateResume(id: string, patch: ResumePatch, now: Instant) returns (updated: Option<Resume>)
      modifies this`resumes, auth.storage`resumes
      ensures auth.user.None? || FindOwned(old(auth.storage.resumes), id, auth.user.value.id).None? ==>
        updated == None && resumes == old(resumes) && auth.storage.resumes == old(auth.storage.resumes)
      ensures auth.user.Some? && FindOwned(old(auth.storage.resumes), id, auth.user.value.id).Some? ==>
        var i := FindOwned(old(auth.storage.resumes), id, auth.user.value.id).value;
        && updated == Some(Patched(old(auth.storage.resumes)[i], patch, now))
        && resumes == ReplaceWithId(old(resumes), id, updated.value)
      ensures auth.storage.resumes == StoreAfterUpdate(old(auth.storage.resumes), id, auth.user, patch, now)
      ensures resumes == LoadedAfterUpdate(old(resumes), old(auth.storage.resumes), id, auth.user, patch, now)
    {
      if auth.user.None? {
        return None;
      }
      var resumeIndex := FindOwned(auth.storage.resumes, id, auth.user.value.id);
      if resumeIndex.None? {
        return None;
      }
      var updatedResume := Patched(auth.storage.resumes[resumeIndex.value], patch, now);
      auth.storage.resumes := auth.storage.resumes[resumeIndex.value := updatedResume];
      resumes := ReplaceWithId(resumes, id, updatedResume);
      return Some(updatedResume);
    }

    /** Remove every stored resume with this id that the signed-in user owns. */
    method DeleteResume(id: string)
      modifies this`resumes, auth.storage`resumes
      ensures auth.user.None? ==> resumes == old(resumes) && auth.storage.resumes == old(auth.storage.resumes)
      ensures auth.user.Some? ==> auth.storage.resumes == WithoutOwned(old(auth.storage.resumes), id, auth.user.value.id)
      ensures auth.user.Some? ==> resumes == WithoutId(old(resumes), id)
    {
      if auth.user.None? {
        return;
      }
      auth.storage.resumes := WithoutOwned(auth.storage.resumes, id, auth.user.value.id);
      resumes := WithoutId(resumes, id);
    }

    /** The first loaded resume with this id, if any. */
    function GetResume(id: string): (r: Option<Resume>)
      reads this
      ensures r.Some? ==> r.value in resumes && r.value.id == id
      ensures r.Some? ==> exists k :: IsFirstWithId(resumes, id, k) && resumes[k] == r.value
      ensures r.None? <==> forall j :: 0 <= j < |resumes| ==> resumes[j].id != id
    {
      match IndexWhere(resumes, (x: Resume) => x.id == id)
      case None => None
      case Some(k) => assert IsFirstWithId(resumes, id, k); Some(resumes[k])
    }
  }
}
