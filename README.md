# Resume builder core in Dafny

A model of the logic of a browser-only resume builder. All of its state lives in
the browser's local storage:

- a list of registered accounts;
- one list holding every user's resumes;
- the remembered session.

The model covers:

- **Auth** (`auth.dfy`): the account context. It registers, logs in, updates the
  profile, changes the password, deletes the account with its resumes, and logs out.
- **ResumeStore** (`resume_store.dfy`): the resume hook. It keeps the signed-in
  user's share of the stored list and saves, updates and deletes resumes.
- **CreateResume** (`create_resume.dfy`): the create-resume form. It edits the
  lists and, on submit, drops blank entries and saves the resume.
- **ATSAnalyzer** (`ats.dfy`): the ATS analyzer. It does keyword extraction, keyword
  matching, the 60 + 30 + 20 + 20 score, and the issue, suggestion and strength lists.
- **Dashboard** (`dashboard.dfy`): the dashboard. It computes the average score,
  sorts the resumes newest first in place, keeps the first three, and renders the
  relative-time text and the score badge.
- **Settings** (`settings.dfy`): the settings page. It runs the ordered name and
  password checks, then updates the profile or the password, or deletes the account.
- **AIAssistant** (`ai_assistant.dfy`): the chat assistant. It picks a reply by the
  first matching keyword rule and keeps an append-only transcript.

Supporting modules:

- `Wrappers`/`Toasts` (`wrappers.dfy`): `Option` and the toast notice.
- `Strings` (`strings.dfy`): JavaScript whitespace, ASCII `toLowerCase`, `includes`,
  `split(/\s+/)`, `join`, number text and `Math.round`.
- `Seqs` (`seqs.dfy`): `filter`, `find`/`findIndex`, `indexOf`, first-occurrence
  dedupe, `slice` and removal by index.
- `Types` (`types.dfy`): the resume record.
- `LocalStore` (`local_storage.dfy`): the three storage keys, as one object shared
  by the auth context and the resume hook.

Code that changes state is modelled as classes with `modifies` frames. Those are:

- the auth context, the resume hook and the storage;
- the form, the analyzer page, the settings page and the chat.

Each method's `ensures` gives its whole new state through specification functions.
Pure computations are functions. Lemmas relate the two.

Timestamps are integer milliseconds (`Instant`). `Date.now()` ids and clock
readings are parameters.

Two behaviours of the source are modelled as written:

- When the selected resume is missing from the loaded list, `analyzeResume`
  returns early and leaves `isAnalyzing` set.
- With no job keywords at all, the keyword share is 0 rather than 30.

## Model

| member | source | states |
|---|---|---|
| Auth.FindLogin | src/contexts/AuthContext.tsx:42 | The first account whose email and password both match; `None` exactly when no account matches both. |
| Auth.EmailTaken | src/contexts/AuthContext.tsx:66 | True exactly when some stored account has this email. |
| Auth.FindUser | src/contexts/AuthContext.tsx:105 | The first account with this id; `None` exactly when there is none. |
| Auth.MergeUser | src/contexts/AuthContext.tsx:101 | `{...user, ...updates}`: each present field replaces the current one, and absent fields are kept. |
| Auth.MergeStored | src/contexts/AuthContext.tsx:107 | The stored-account merge keeps the password, and its public part equals the session merge. |
| Auth.WithProfileUpdate | src/contexts/AuthContext.tsx:104-109 | Only the first account with the user's id is merged; every other account and the length are unchanged; with no such account the list is unchanged. |
| Auth.WithoutUser | src/contexts/AuthContext.tsx:149 | Exactly the accounts whose id differs. |
| Auth.WithoutResumesOf | src/contexts/AuthContext.tsx:154 | Exactly the resumes of other owners. |
| Auth.WithPassword | src/contexts/AuthContext.tsx:126-134 | Only the found account's password changes; all its other fields and every other account stay. |
| Auth.RegisterKeepsEmailsUnique | src/contexts/AuthContext.tsx:66-81 | Registration refuses a taken email, so it preserves unique emails. |
| Auth.RegisterThenLogin | src/contexts/AuthContext.tsx:42-81 | After registering, logging in with the same credentials finds exactly the new account. |
| Auth.LoginFindsOwnerOfEmail | src/contexts/AuthContext.tsx:42 | With unique emails, a login succeeds iff the password is the one of the account with that email, and it finds that account. |
| Auth.ChangePasswordThenLogin | src/contexts/AuthContext.tsx:126-134 | After a password change, emails stay unique and the new password logs in to the same account. |
| Auth.AuthContext.constructor | src/contexts/AuthContext.tsx:25-26 | Starts with no user and loading, over the given storage. |
| Auth.AuthContext.RestoreSession | src/contexts/AuthContext.tsx:28-35 | A remembered session becomes the user; loading ends. |
| Auth.AuthContext.Login | src/contexts/AuthContext.tsx:37-59 | Succeeds iff some account matches. Success sets the user and the session to that account's public view; failure changes neither. |
| Auth.AuthContext.Register | src/contexts/AuthContext.tsx:61-95 | Succeeds iff the email is free. Success appends the account with an empty image and signs it in; failure changes nothing. |
| Auth.AuthContext.UpdateProfile | src/contexts/AuthContext.tsx:97-119 | Fails without a user. Otherwise the user and session become the merge, and the stored list becomes `WithProfileUpdate`. |
| Auth.AuthContext.ChangePassword | src/contexts/AuthContext.tsx:121-141 | Succeeds iff there is a user, their account exists and the current password matches. Only then is the password replaced. |
| Auth.AuthContext.DeleteAccount | src/contexts/AuthContext.tsx:143-165 | With a user, removes their accounts and resumes and clears the user and session. Without one, nothing changes. |
| Auth.AuthContext.Logout | src/contexts/AuthContext.tsx:167-170 | Clears the user and the session; the accounts are untouched. |
| ResumeStore.OwnedBy | src/hooks/useResumes.ts:23 | Exactly the stored resumes of that owner. |
| ResumeStore.NewResume | src/hooks/useResumes.ts:31-37 | The form data with the new id and the owner; both stamps are the one clock reading passed in. |
| ResumeStore.FindOwned | src/hooks/useResumes.ts:51 | The first index with this id and owner; `None` exactly when there is none. |
| ResumeStore.Patched | src/hooks/useResumes.ts:55-59 | Present patch fields win, the others are kept, and `updatedAt` is always the new time. |
| ResumeStore.StoreAfterUpdate | src/hooks/useResumes.ts:48-62 | Only the found slot is patched; with no user or no match the list is unchanged. |
| ResumeStore.LoadedAfterUpdate | src/hooks/useResumes.ts:48-64 | Every loaded entry with the id becomes the patched stored record; with no user or no match the list is unchanged. |
| ResumeStore.WithoutOwned | src/hooks/useResumes.ts:72 | Exactly the resumes that are not (this id and this owner). |
| ResumeStore.ReplaceWithId | src/hooks/useResumes.ts:64 | Same length; entries with the id become the update and the others stay. |
| ResumeStore.WithoutId | src/hooks/useResumes.ts:75 | Exactly the loaded resumes with another id. |
| ResumeStore.SaveExtendsOwnShare | src/hooks/useResumes.ts:39-43 | Saving adds exactly the new record at the end of its owner's share. |
| ResumeStore.SaveKeepsOtherShares | src/hooks/useResumes.ts:39-41 | Saving leaves every other user's share unchanged. |
| ResumeStore.DeleteKeepsOtherShares | src/hooks/useResumes.ts:71-73 | Deleting leaves every other user's share unchanged, even for entries with the same id. |
| ResumeStore.DeleteKeepsShareInStep | src/hooks/useResumes.ts:71-75 | Deleting from the loaded share gives what a reload from the updated store would give. |
| ResumeStore.UpdateTouchesOneSlot | src/hooks/useResumes.ts:55-61 | An update rewrites only the found slot, with the new time, and keeps the owner unless the patch names one. |
| ResumeStore.ResumesHook.constructor | src/hooks/useResumes.ts:7-8 | Starts with an empty loaded list and loading, for the given account context. |
| ResumeStore.ResumesHook.LoadResumes | src/hooks/useResumes.ts:15-26 | The loaded list is the user's share, or empty without a user; loading ends. |
| ResumeStore.ResumesHook.SaveResume | src/hooks/useResumes.ts:28-45 | Without a user: `None`, nothing changes. Otherwise the new record is appended to both lists and returned. |
| ResumeStore.ResumesHook.UpdateResume | src/hooks/useResumes.ts:47-66 | Both lists become `StoreAfterUpdate`/`LoadedAfterUpdate`. The patched record is returned iff one was found. |
| ResumeStore.ResumesHook.DeleteResume | src/hooks/useResumes.ts:68-76 | The store loses this user's resumes with the id and the loaded list loses all with the id; without a user nothing changes. |
| ResumeStore.ResumesHook.GetResume | src/hooks/useResumes.ts:78-80 | The first loaded resume with the id; `None` exactly when there is none. |
| Seqs.Filter | src/pages/ATSAnalyzer.tsx:111 | An element is kept iff it is in the input and passes the test. |
| Seqs.IndexOf | src/pages/ATSAnalyzer.tsx:112 | The first position of the element; -1 exactly when it is absent. |
| Seqs.KeepFirstOrdered | src/pages/ATSAnalyzer.tsx:112 | The dedupe keeps survivors in the order of their first positions. |
| Seqs.KeepFirstMembers | src/pages/ATSAnalyzer.tsx:112 | The dedupe keeps exactly the elements first seen at or after the start position. |
| Seqs.KeepFirstEarlier | src/pages/ATSAnalyzer.tsx:112 | An element first seen before a survivor of the dedupe also survives, and comes earlier. |
| Seqs.Take | src/pages/ATSAnalyzer.tsx:113 | `slice(0, n)`: the prefix of length `min(n, |s|)`. |
| Seqs.RemoveAt | src/pages/CreateResume.tsx:40 | With a valid index, that one entry is removed and the others stay in order; otherwise the list is unchanged. |
| Seqs.RemoveAtSplits | src/pages/CreateResume.tsx:40 | Removing an entry leaves the entries before and after it; the multiset loses exactly that entry. |
| Strings.ToLower | src/pages/ATSAnalyzer.tsx:108 | Same length, and each character is lower-cased. |
| Strings.ToLowerIdempotent | src/components/AIAssistant.tsx:40 | Lower-casing twice equals lower-casing once. |
| Strings.Split | src/pages/ATSAnalyzer.tsx:110 | `split(/\s+/)` always gives at least one piece. |
| Strings.SplitPieces | src/pages/ATSAnalyzer.tsx:110 | The pieces of `split(/\s+/)` contain no whitespace, and all their characters come from the text. |
| Strings.SplitJoinWith | src/pages/ATSAnalyzer.tsx:110 | Pieces of the shape `split(/\s+/)` returns (no whitespace; only the first or last may be empty), put back together with any non-empty whitespace gaps (spaces, tabs, line breaks, runs of them), split into exactly those pieces. |
| Strings.ContainsAt | src/pages/ATSAnalyzer.tsx:57 | `includes`: true iff the part occurs at some index of the text. |
| Strings.OccursInJoin | src/pages/ATSAnalyzer.tsx:51 | Each piece of a join occurs in it at some index. |
| Strings.OccursWithin | src/pages/ATSAnalyzer.tsx:51 | A text inside a text that occurs in `s` occurs in `s`, at the sum of the two indices. |
| Strings.ContainsInJoin | src/pages/ATSAnalyzer.tsx:51 | A join `includes` each of its pieces and anything occurring in one. |
| Strings.ContainsInside | src/pages/ATSAnalyzer.tsx:57 | A text occurring in `s` is included in any text built around `s`. |
| Strings.ContainsMiddle | src/pages/ATSAnalyzer.tsx:57 | A text is included in anything built around it. |
| Strings.BlankIsTrimmedEmpty | src/pages/CreateResume.tsx:68 | `!x.trim()`: a text is blank iff skipping its whitespace leaves nothing. Also used at CreateResume.tsx:80, Settings.tsx:29 and AIAssistant.tsx:70. |
| Strings.RoundHalfUp | src/pages/Dashboard.tsx:15 | `Math.round(num/den)`: the integer within half of the quotient, with halves rounded up. |
| Strings.NatToStringValue | src/pages/Dashboard.tsx:19 | The decimal text of a number reads back as that number. |
| Strings.NatToStringInjective | src/pages/Dashboard.tsx:19-20 | Different numbers get different decimal texts. |
| ATSAnalyzer.Normalise | src/pages/ATSAnalyzer.tsx:107-109 | Lower-casing and replacing non-word characters keep the length. |
| ATSAnalyzer.NormaliseEach | src/pages/ATSAnalyzer.tsx:107-109 | Each character is lower-cased if it is a word character, kept if it is whitespace, and replaced by a space otherwise. |
| ATSAnalyzer.NormaliseKeepsNormal | src/pages/ATSAnalyzer.tsx:107-109 | A text of lower-case word characters and whitespace is unchanged. |
| ATSAnalyzer.TokensOfWords | src/pages/ATSAnalyzer.tsx:107-110 | Lower-case keyword-character words separated by any whitespace gaps split into exactly those words. Leading or trailing whitespace gives an empty word at that end. |
| ATSAnalyzer.NormaliseChars | src/pages/ATSAnalyzer.tsx:108-109 | After normalising, each character is whitespace, a lower-case letter, a digit or `_`. |
| ATSAnalyzer.TokensAreWords | src/pages/ATSAnalyzer.tsx:107-110 | Every word of the split consists of keyword characters only. |
| ATSAnalyzer.ExtractKeywords | src/pages/ATSAnalyzer.tsx:104-114 | At most fifty keywords. |
| ATSAnalyzer.KeywordsOfWords | src/pages/ATSAnalyzer.tsx:104-114 | For words separated by any whitespace gaps, every keyword is one of the words. If the words are distinct candidates, at most fifty, the keywords are exactly those words in order. |
| Seqs.KeepFirstDistinct | src/pages/ATSAnalyzer.tsx:112 | The dedupe leaves a list without repeats unchanged. |
| ATSAnalyzer.KeywordsKeepEarliest | src/pages/ATSAnalyzer.tsx:112-113 | The cap keeps the earliest keywords: a candidate first seen before a kept keyword is kept too. |
| ATSAnalyzer.KeywordsFullOrComplete | src/pages/ATSAnalyzer.tsx:111-113 | Either all fifty places are taken or every candidate word is a keyword. |
| ATSAnalyzer.KeywordsWellFormed | src/pages/ATSAnalyzer.tsx:104-114 | Every keyword is a word of the text, longer than two characters, not a common word, and made of `[a-z0-9_]`. |
| ATSAnalyzer.KeywordsDistinctInOrder | src/pages/ATSAnalyzer.tsx:111-113 | Keywords have no repeats and follow the order of their first appearance. |
| ATSAnalyzer.KeywordsCompleteUnderLimit | src/pages/ATSAnalyzer.tsx:111-113 | With fewer than fifty keywords, every candidate word of the text is one. |
| ATSAnalyzer.KeywordsInTextOrder | src/pages/ATSAnalyzer.tsx:107-113 | Keywords appear in the order of their first occurrence among the text's words. |
| ATSAnalyzer.MatchingKeywords | src/pages/ATSAnalyzer.tsx:56-58 | Exactly the job keywords that some resume keyword contains, case-insensitively. |
| ATSAnalyzer.MissingKeywords | src/pages/ATSAnalyzer.tsx:60-62 | Exactly the job keywords that no resume keyword contains. |
| ATSAnalyzer.KeywordListsInJobOrder | src/pages/ATSAnalyzer.tsx:56-62 | Both lists keep job-keyword order. Around any job keyword, each list is its list of the keywords before, then the keyword iff it belongs, then its list of the keywords after. This fixes which missing keywords are the first ten reported and the first five in the tip. |
| ATSAnalyzer.KeywordsPartitioned | src/pages/ATSAnalyzer.tsx:56-62 | Each job keyword is matching or missing and never both; the two lengths add up to the job list. |
| ATSAnalyzer.CoveredIsSubstring | src/pages/ATSAnalyzer.tsx:57 | For extracted (lower-case) keywords, covering is plain substring occurrence at some index. |
| ATSAnalyzer.OwnKeywordCovered | src/pages/ATSAnalyzer.tsx:57 | A keyword the resume itself has is always matching. |
| ATSAnalyzer.CountTrue | src/pages/ATSAnalyzer.tsx:116-146 | The number of passed checks is at most the number of checks. |
| ATSAnalyzer.RubricScoresInRange | src/pages/ATSAnalyzer.tsx:116-146 | Both rubric scores are multiples of 5 between 0 and 20. |
| ATSAnalyzer.CheckFormat | src/pages/ATSAnalyzer.tsx:116-132 | The accumulated score is 5 times the number of passed format checks, a multiple of 5 in 0..20. |
| ATSAnalyzer.CheckContent | src/pages/ATSAnalyzer.tsx:134-146 | 5 times the number of passed content checks, a multiple of 5 in 0..20. The detailed-project check is done by a loop over the projects. |
| ATSAnalyzer.KeywordPointsInRange | src/pages/ATSAnalyzer.tsx:68 | The rounded keyword share is between 0 and 30. |
| ATSAnalyzer.KeywordPointsNearest | src/pages/ATSAnalyzer.tsx:68-79 | The share is the nearest integer to 30·matched/max(total,1). It is 30 when all of a non-empty list match and 0 when none match. |
| ATSAnalyzer.ScoreInRange | src/pages/ATSAnalyzer.tsx:65-79 | The score is between 60 and 100. |
| ATSAnalyzer.KeywordPointsMonotone | src/pages/ATSAnalyzer.tsx:68 | Matching more keywords never lowers the keyword share. |
| ATSAnalyzer.ScoreMonotone | src/pages/ATSAnalyzer.tsx:65-79 | Matching more keywords never lowers the score, which is capped at 100. |
| ATSAnalyzer.ManyMissingIssueDistinct | src/pages/ATSAnalyzer.tsx:151-165 | The keyword issue text differs from the three fixed issue texts. |
| ATSAnalyzer.GenerateIssues | src/pages/ATSAnalyzer.tsx:148-168 | Each issue is present iff its condition holds, and the count equals the number of conditions that hold. The list is exactly the issues that hold, in the order keywords, skills, projects, phone. |
| ATSAnalyzer.KeywordTipNamesMissing | src/pages/ATSAnalyzer.tsx:174 | The keyword tip has its fixed prefix and names each of the first five missing keywords. |
| ATSAnalyzer.GenerateSuggestions | src/pages/ATSAnalyzer.tsx:170-183 | A tip naming the first five missing keywords comes first iff any are missing, then the four fixed tips. |
| ATSAnalyzer.GetFormatIssues | src/pages/ATSAnalyzer.tsx:185-193 | Each issue is present iff its field is empty. The list is exactly those issues, in name, email, phone order. |
| ATSAnalyzer.KeywordStrengthDistinct | src/pages/ATSAnalyzer.tsx:198-211 | The keyword strength text differs from the three fixed strength texts. |
| ATSAnalyzer.GetStrengths | src/pages/ATSAnalyzer.tsx:195-215 | Each strength is present iff its condition holds, and the count matches. The list is exactly the strengths that hold, in the order keywords, skills, projects, education. |
| ATSAnalyzer.ScoreColor | src/pages/ATSAnalyzer.tsx:217-221 | Green iff ≥ 80, yellow iff in 60..79, red iff < 60. |
| ATSAnalyzer.ScoreLevel | src/pages/ATSAnalyzer.tsx:223-227 | "Excellent" iff ≥ 80, "Good" iff in 60..79, "Needs Improvement" iff < 60. |
| ATSAnalyzer.AnalysedScoreNeverRed | src/pages/ATSAnalyzer.tsx:79 | An analysis score is never shown red or as needing improvement. |
| ATSAnalyzer.ProjectTexts | src/pages/ATSAnalyzer.tsx:51 | One text per project, in project order. |
| ATSAnalyzer.OccursInProjectText | src/pages/ATSAnalyzer.tsx:51 | A project's text holds its title, its description and each of its technologies. |
| ATSAnalyzer.ResumeTextHasParts | src/pages/ATSAnalyzer.tsx:51 | The analyzed text includes the name, email, role, college, every skill, and every project's title, description and technologies. |
| ATSAnalyzer.AnalysisScore | src/pages/ATSAnalyzer.tsx:64-79 | The score of a resume against a job is between 60 and 100. |
| ATSAnalyzer.FullMatchScoresAtLeast90 | src/pages/ATSAnalyzer.tsx:56-79 | Covering every keyword of a non-empty job list scores at least 90. |
| ATSAnalyzer.NoMatchNoKeywordPoints | src/pages/ATSAnalyzer.tsx:56-79 | Covering none scores exactly 60 plus the two rubric scores. |
| ATSAnalyzer.Analyse | src/pages/ATSAnalyzer.tsx:53-89 | The result holds the score, the matching keywords, the first ten missing ones and the four lists, each as its specification says; the score is in 60..100. |
| ATSAnalyzer.ScoreMessage | src/pages/ATSAnalyzer.tsx:100 | The notice has its fixed prefix and suffix; between them, a non-negative score is written in decimal digits that read back as the score. |
| ATSAnalyzer.SelectedResume | src/pages/ATSAnalyzer.tsx:47 | `find`: the first loaded resume with the selected id; `None` exactly when none has it. |
| ATSAnalyzer.ATSAnalyzerPage.constructor | src/pages/ATSAnalyzer.tsx:27-30 | Starts with no selection, an empty description, no analysis and not analysing. |
| ATSAnalyzer.ATSAnalyzerPage.AnalyzeResume | src/pages/ATSAnalyzer.tsx:32-102 | A missing selection or blank description gives the warning and changes nothing. An unknown id changes nothing but leaves `isAnalyzing` set. Otherwise the analysis is stored, the score is written through `updateResume`, and the completion notice carries the score. |
| Seqs.AddThenRemoveLast | src/pages/CreateResume.tsx:39-40 | Appending an entry and then removing it by its index gives the list back. |
| CreateResume.Filled | src/pages/CreateResume.tsx:80 | Exactly the non-blank entries. |
| CreateResume.FilledInOrder | src/pages/CreateResume.tsx:80 | Cleaning keeps order and multiplicity. Around any entry, the cleaned list is the cleaned entries before, the entry iff it is not blank, then the cleaned entries after. Also used at line 86. |
| CreateResume.FilledIdempotent | src/pages/CreateResume.tsx:80 | Cleaning a cleaned list changes nothing. |
| CreateResume.CleanProject | src/pages/CreateResume.tsx:82-85 | Title and description are kept; exactly the non-blank technologies remain. |
| CreateResume.CleanProjects | src/pages/CreateResume.tsx:81-85 | Every saved project is a cleaned input project with a non-blank title, and every such project is saved. |
| CreateResume.CleanProjectsInOrder | src/pages/CreateResume.tsx:81-85 | Projects keep order and multiplicity. Around any project, the saved list is the saved projects before, the cleaned project iff its title is not blank, then the saved projects after. |
| CreateResume.SavedProjectsFilled | src/pages/CreateResume.tsx:82-85 | Saved projects have a title and only non-blank technologies. |
| CreateResume.CreateResumeForm.constructor | src/pages/CreateResume.tsx:14-33 | One blank skill, one blank project with one blank technology, one blank certification. |
| CreateResume.CreateResumeForm.AddSkill | src/pages/CreateResume.tsx:39 | Appends one empty skill. |
| CreateResume.CreateResumeForm.RemoveSkill | src/pages/CreateResume.tsx:40 | Removes the skill at the index, if there is one. |
| CreateResume.CreateResumeForm.UpdateSkill | src/pages/CreateResume.tsx:41-45 | Only that skill changes; the length is kept. |
| CreateResume.CreateResumeForm.AddProject | src/pages/CreateResume.tsx:47 | Appends one empty project. |
| CreateResume.CreateResumeForm.RemoveProject | src/pages/CreateResume.tsx:48 | Removes the project at the index, if there is one. |
| CreateResume.CreateResumeForm.AddTechnology | src/pages/CreateResume.tsx:50-54 | Only that project's technologies change, by one empty entry at the end. |
| CreateResume.CreateResumeForm.RemoveTechnology | src/pages/CreateResume.tsx:56-60 | Only that project's technologies change, by removing the one at the index. |
| CreateResume.CreateResumeForm.AddCertification | src/pages/CreateResume.tsx:62 | Appends one empty certification. |
| CreateResume.CreateResumeForm.RemoveCertification | src/pages/CreateResume.tsx:63 | Removes the certification at the index, if there is one. |
| CreateResume.CreateResumeForm.Submission | src/pages/CreateResume.tsx:77-88 | Fields are as typed, and there is no score. Skills and certifications hold exactly their non-blank entries. Every saved project is a cleaned input project with a title, and every input project with a title is saved cleaned. The three lists are `Filled` and `CleanProjects` of the form's lists, so they keep their order. |
| CreateResume.CreateResumeForm.HandleSubmit | src/pages/CreateResume.tsx:65-99 | A blank title is refused with a notice and nothing is saved. Without a user nothing is saved and there is no notice. Otherwise the submission is appended to both lists and the success notice shows. |
| Dashboard.ScoreOf | src/pages/Dashboard.tsx:15 | A missing score counts as 0. |
| Dashboard.SumScoresConcat | src/pages/Dashboard.tsx:15 | The sum over a concatenation is the sum of the parts. |
| Dashboard.SumScoresRemove | src/pages/Dashboard.tsx:15 | Removing one resume removes its score from the sum. |
| Dashboard.SumScoresPermutation | src/pages/Dashboard.tsx:15 | The sum does not depend on the order of the resumes. |
| Dashboard.SumScoresBounds | src/pages/Dashboard.tsx:15 | Scores in lo..hi give a sum in n·lo..n·hi. |
| Dashboard.AverageScore | src/pages/Dashboard.tsx:14-16 | 0 for no resumes; otherwise the integer nearest the mean, with halves rounded up. |
| Dashboard.AverageWithinScores | src/pages/Dashboard.tsx:14-16 | If every score is in lo..hi, so is the average. |
| Dashboard.AverageIgnoresOrder | src/pages/Dashboard.tsx:14-26 | Reordering the resumes, as the in-place sort does, leaves the average unchanged. |
| Dashboard.AverageStat | src/pages/Dashboard.tsx:20 | For a positive average, digits that read back as the average, followed by `%`; "N/A" otherwise. |
| Dashboard.AverageStatNA | src/pages/Dashboard.tsx:20 | "N/A" iff the average is not positive. |
| Dashboard.AnalysedResumesHaveAverage | src/pages/Dashboard.tsx:14-20 | When every resume has a score in 60..100, the average is in 60..100 and is shown. |
| Dashboard.TotalStat | src/pages/Dashboard.tsx:19 | A non-empty string of decimal digits that reads back as the number of resumes. |
| Dashboard.ActivityStat | src/pages/Dashboard.tsx:21 | "Active" iff there is a resume, "None" iff there is none. |
| Dashboard.SortByRecency | src/pages/Dashboard.tsx:25 | The array is a permutation of what it was, sorted newest first. |
| Dashboard.InsertNewest | src/pages/Dashboard.tsx:25 | One insertion step extends the sorted prefix by one and keeps the multiset. |
| Dashboard.Swap | src/pages/Dashboard.tsx:25 | Exchanges two entries and keeps the multiset. |
| Dashboard.RecentResumes | src/pages/Dashboard.tsx:24-26 | The hook's list is re-ordered in place, newest first, as a permutation; the first three are returned. |
| Dashboard.RecentAreNewest | src/pages/Dashboard.tsx:24-26 | The kept three are newest first, and none of the rest was modified later. |
| Dashboard.HoursSince | src/pages/Dashboard.tsx:31 | Whole hours elapsed, rounded down, also for future dates. |
| Dashboard.DaysFromHours | src/pages/Dashboard.tsx:36 | Whole days counted through whole hours equal whole days elapsed. |
| Dashboard.DivUnique | src/pages/Dashboard.tsx:31-36 | The quotient is the only integer bracketing the dividend. |
| Dashboard.RelativeTime | src/pages/Dashboard.tsx:28-37 | The text by elapsed milliseconds: "Just now" under an hour; "h hours ago" with h in 1..23; "1 day ago" from 24 to 48 hours; otherwise the whole days (at least 2) "days ago". |
| Dashboard.BadgeColour | src/pages/Dashboard.tsx:123 | Green iff the score is set, non-zero and ≥ 80; yellow iff set, non-zero and in 60..79; red otherwise. |
| Dashboard.BadgeText | src/pages/Dashboard.tsx:124 | `N%` for a set, non-zero score; "Not analyzed" otherwise. |
| Dashboard.AnalysedBadge | src/pages/Dashboard.tsx:123-124 | An analyser score in 60..100 is shown, and never red. |
| Settings.NamePatch | src/pages/Settings.tsx:38 | The name update carries only the name. |
| Settings.ImagePatch | src/pages/Settings.tsx:106 | The image update carries only the image. |
| Settings.PatchKeepsEmails | src/pages/Settings.tsx:38-106 | Updates without an email or id keep every stored email and id, and the session's. |
| Settings.PatchKeepsEmailsUnique | src/pages/Settings.tsx:38-106 | Such updates keep the emails unique. |
| Settings.PasswordProblem | src/pages/Settings.tsx:54-79 | The first failing check in order: "fill in" iff either password is empty; "don't match" iff both are filled and they differ; "too short" iff they match but are under 6; none iff all pass. An empty new password always gives "fill in". |
| Settings.SettingsPage.constructor | src/pages/Settings.tsx:21-26 | Starts from the user's name and image, with empty password fields and the dialog closed. |
| Settings.SettingsPage.HandleNameUpdate | src/pages/Settings.tsx:28-51 | A blank name is refused and nothing changes, the loading flag included. Otherwise the untrimmed name updates the user, the session and the stored account, or fails without a user. |
| Settings.SettingsPage.HandlePasswordChange | src/pages/Settings.tsx:53-97 | A failed check gives its notice and changes nothing. An accepted change clears all three fields and stores the password. A rejected one keeps the fields. |
| Settings.SettingsPage.HandleImageLoaded | src/pages/Settings.tsx:103-110 | The image becomes the page's, is sent as a profile update, and the success notice always shows. The loading flag is untouched. |
| Settings.SettingsPage.HandleDeleteAccount | src/pages/Settings.tsx:116-131 | Deletes the account and its resumes when signed in, and gives the notice for the outcome. The dialog closes either way, and the loading flag is untouched. |
| AIAssistant.ReplyTextsDistinct | src/components/AIAssistant.tsx:42-66 | The seven reply texts are pairwise different. |
| AIAssistant.GetAIResponse | src/components/AIAssistant.tsx:39-67 | Each reply is chosen iff its rule matches the lowercased message and no earlier rule does; otherwise the fallback. |
| AIAssistant.ResponseIgnoresCase | src/components/AIAssistant.tsx:40 | A message and its lower-case form get the same reply. |
| AIAssistant.HiInsideAWordGreets | src/components/AIAssistant.tsx:62 | "this" gets the greeting, because "hi" is matched as a substring. |
| AIAssistant.ConversationGrows | src/components/AIAssistant.tsx:79-93 | Appending a question and the reply to it keeps the transcript a conversation. |
| AIAssistant.ChatAssistant.constructor | src/components/AIAssistant.tsx:18-28 | The transcript is exactly the welcome message. |
| AIAssistant.ChatAssistant.HandleSendMessage | src/components/AIAssistant.tsx:69-95 | Blank input changes nothing. Otherwise it appends the typed text and then the reply to it, and clears the input. The transcript remains a conversation. |

## Left out

- Local storage as JSON text. The three keys hold values directly; `JSON.parse`/`stringify` and the `try/catch` around them are not modelled.
- `await`, `setTimeout` delays, React state batching, `useEffect` triggers, toasts as UI, and navigation. Toasts are returned as `Notice` values.
- `Date.now()` ids and `new Date()` readings are parameters. Id uniqueness is not assumed.
- ResumeStore.NewResume: the source reads the clock twice, once for `createdAt` and once for `updatedAt`. The model passes one reading for both, so it assumes the two readings fall in the same millisecond.
- `Strings.ToLower`: lower-cases ASCII letters only. JavaScript's `toLowerCase` also folds non-ASCII letters. Only two of them (U+0130 and U+212A) fold to ASCII letters that the keyword rules or the word-character class could then see.
- Floating point: the keyword share and the dashboard average are computed exactly in integers, so `Math.round` is exact rounding with halves up.
- `ATSAnalyzer.StopWords`: the common-word array is a set, with the same membership test.
- JavaScript string `length` counts UTF-16 code units; the model counts characters (password length, description length).
- `CreateResume.CreateResumeForm.UpdateSkill`, `AddTechnology` and `RemoveTechnology` require an existing index. The form only passes indices of rendered rows; out of range, JavaScript would create holes or throw.
- CreateResume.CreateResumeForm.AddTechnology, CreateResume.CreateResumeForm.RemoveTechnology: the source changes the technologies of the project object shared with the previous state (a `push`, and an assignment to `.technologies`). The model replaces the project by value, so that aliasing is not captured.
- `Dashboard.SortByRecency`: the comparator sort is modelled as an insertion sort. Stability of JavaScript's `sort` is not stated.
- `Settings.SettingsPage.HandleImageLoaded`: reading the file with `FileReader` is not modelled; the method starts from the data URL the reader produced.
- Plain field setters (inputs bound to state), the theme toggle, and the chat's open/close toggle.
- Not part of this model: PDF/DOCX export (src/utils/downloadUtils.ts), the upload page's hard-coded extraction (src/pages/UploadResume.tsx), and rendering-only components (ResumePreview, Resumes, Header, App).
