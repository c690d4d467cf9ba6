/**
 * The chat assistant: a canned reply chosen by the first matching keyword
 * rule on the lowercased message, and a transcript that only ever grows by a
 * user message followed by the reply to it.
 */
module AIAssistant {
  import opened Types
  import opened Strings

  const WelcomeText := "Hello! I'm your AI assistant. I can help you with resume writing, job search tips, ATS optimization, and career advice. How can I assist you today?"
  const ResumeTipsText := "Here are some key resume tips:\n\n1. Keep it concise (1-2 pages max)\n2. Use action verbs and quantifiable achievements\n3. Tailor it to each job application\n4. Include relevant keywords from the job description\n5. Use a clean, professional format\n6. Proofread carefully for errors\n\nWould you like specific advice for any section of your resume?"
  const AtsTipsText := "ATS (Applicant Tracking System) optimization tips:\n\n1. Use standard section headings (Experience, Education, Skills)\n2. Include keywords from the job posting\n3. Use simple formatting - avoid tables, graphics, headers/footers\n4. Save as .docx or PDF (check job posting requirements)\n5. Use standard fonts like Arial, Calibri, or Times New Roman\n6. Spell out abbreviations\n\nOur ATS analyzer can help you check your resume's compatibility!"
  const JobSearchTipsText := "Job search and interview tips:\n\n1. Research the company thoroughly\n2. Practice common interview questions\n3. Prepare specific examples using the STAR method\n4. Network actively on LinkedIn\n5. Follow up after applications and interviews\n6. Customize your application for each role\n\nWhat specific aspect of job searching would you like help with?"
  const SkillsTipsText := "When listing skills and experience:\n\n1. Focus on relevant, transferable skills\n2. Use specific examples and metrics\n3. Include both hard and soft skills\n4. Group similar skills together\n5. Prioritize skills mentioned in job postings\n6. Show progression and growth\n\nWould you like help identifying skills for a specific role?"
  const CoverLetterTipsText := "Cover letter best practices:\n\n1. Address it to a specific person when possible\n2. Keep it to one page\n3. Show enthusiasm for the role and company\n4. Complement, don't repeat your resume\n5. Include specific examples of achievements\n6. End with a clear call to action\n\nWould you like help structuring your cover letter?"
  const GreetingText := "Hello! I'm here to help you with all things career-related. I can assist with:\n\n• Resume writing and optimization\n• ATS compatibility tips\n• Interview preparation\n• Job search strategies\n• Cover letter guidance\n• Career advice\n\nWhat would you like to work on today?"
  const FallbackText := "I'd be happy to help you with that! As your career assistant, I can provide guidance on:\n\n• Resume writing and formatting\n• ATS optimization\n• Job search strategies\n• Interview preparation\n• Career development\n\nCould you be more specific about what you'd like help with? For example, you could ask about 'resume tips', 'ATS optimization', or 'interview advice'."

  /** The seven replies, in the order their rules are tried. */
  datatype Reply = ResumeTips | AtsTips | JobSearchTips | SkillsTips | CoverLetterTips | Greeting | Fallback

  function ReplyText(r: Reply): string {
    match r
    case ResumeTips => ResumeTipsText
    case AtsTips => AtsTipsText
    case JobSearchTips => JobSearchTipsText
    case SkillsTips => SkillsTipsText
    case CoverLetterTips => CoverLetterTipsText
    case Greeting => GreetingText
    case Fallback => FallbackText
  }

  /** The seven reply texts are seven different texts. */
  lemma ReplyTextsDistinct(a: Reply, b: Reply)
    ensures ReplyText(a) == ReplyText(b) <==> a == b
  {
    if a != b {
      assert |ReplyText(a)| != |ReplyText(b)|;
    }
  }

  // The rules, tried in this order on the lowercased message.
  predicate AsksResumeTips(m: string) { Contains(m, "resume") && Contains(m, "tips") }
  predicate AsksAts(m: string) { Contains(m, "ats") || Contains(m, "applicant tracking") }
  predicate AsksJobSearch(m: string) { Contains(m, "job search") || Contains(m, "interview") }
  predicate AsksSkills(m: string) { Contains(m, "skills") || Contains(m, "experience") }
  predicate AsksCoverLetter(m: string) { Contains(m, "cover letter") }
  predicate Greets(m: string) { Contains(m, "hello") || Contains(m, "hi") || Contains(m, "hey") }

  /** `getAIResponse`: the reply of the first rule the lowercased message matches, or the fallback. */
  function GetAIResponse(userMessage: string): (r: Reply)
    ensures var m := ToLower(userMessage);
      && (r == ResumeTips <==> AsksResumeTips(m))
      && (r == AtsTips <==> !AsksResumeTips(m) && AsksAts(m))
      && (r == JobSearchTips <==> !AsksResumeTips(m) && !AsksAts(m) && AsksJobSearch(m))
      && (r == SkillsTips <==> !AsksResumeTips(m) && !AsksAts(m) && !AsksJobSearch(m) && AsksSkills(m))
      && (r == CoverLetterTips <==>
            !AsksResumeTips(m) && !AsksAts(m) && !AsksJobSearch(m) && !AsksSkills(m) && AsksCoverLetter(m))
      && (r == Greeting <==>
            !AsksResumeTips(m) && !AsksAts(m) && !AsksJobSearch(m) && !AsksSkills(m) && !AsksCoverLetter(m) && Greets(m))
      && (r == Fallback <==>
            !AsksResumeTips(m) && !AsksAts(m) && !AsksJobSearch(m) && !AsksSkills(m) && !AsksCoverLetter(m) && !Greets(m))
  {
    var m := ToLower(userMessage);
    if AsksResumeTips(m) then ResumeTips
    else if AsksAts(m) then AtsTips
    else if AsksJobSearch(m) then JobSearchTips
    else if AsksSkills(m) then SkillsTips
    else if AsksCoverLetter(m) then CoverLetterTips
    else if Greets(m) then Greeting
    else Fallback
  }

  /** Matching ignores letter case: a message and its lowercased form get the same reply. */
  lemma ResponseIgnoresCase(userMessage: string)
    ensures GetAIResponse(ToLower(userMessage)) == GetAIResponse(userMessage)
  {
    ToLowerIdempotent(userMessage);
  }

  /** "hi" is matched anywhere, so a message such as "this" is answered with the greeting. */
  lemma HiInsideAWordGreets()
    ensures GetAIResponse("this") == Greeting
  {
    var m := ToLower("this");
    assert m == "this";
    assert Contains(m, "hi") by {
      assert Contains(m[1..], "hi");
    }
    ContainsFits(m, "resume");
    ContainsFits(m, "applicant tracking");
    ContainsFits(m, "job search");
    ContainsFits(m, "interview");
    ContainsFits(m, "skills");
    ContainsFits(m, "experience");
    ContainsFits(m, "cover letter");
    assert !Contains(m, "ats") by {
      assert m[..3][0] != "ats"[0] && m[1..][..3][0] != "ats"[0];
      assert m[1..][1..] == m[2..];
      ContainsFits(m[2..], "ats");
    }
  }

  datatype Sender = FromUser | FromAssistant

  datatype Message = Message(id: string, text: string, sender: Sender, timestamp: Instant)

  /**
   * A transcript as the chat builds it: the welcome message, then pairs of a
   * user message and the reply to exactly that message.
   */
  ghost predicate Conversation(ms: seq<Message>) {
    && |ms| % 2 == 1
    && ms[0].sender == FromAssistant && ms[0].text == WelcomeText
    && forall i :: 0 < i < |ms| ==>
         && (ms[i].sender == FromUser <==> i % 2 == 1)
         && (i % 2 == 0 ==> ms[i].text == ReplyText(GetAIResponse(ms[i - 1].text)))
  }

  /** Appending a question and the reply to it keeps a transcript a conversation. */
  lemma ConversationGrows(ms: seq<Message>, question: Message, answer: Message)
    requires Conversation(ms)
    requires question.sender == FromUser && answer.sender == FromAssistant
    requires answer.text == ReplyText(GetAIResponse(question.text))
    ensures Conversation(ms + [question, answer])
  {
    var ns := ms + [question, answer];
    assert ns[|ms|] == question && ns[|ms| + 1] == answer;
    forall i | 0 < i < |ns|
      ensures ns[i].sender == FromUser <==> i % 2 == 1
      ensures i % 2 == 0 ==> ns[i].text == ReplyText(GetAIResponse(ns[i - 1].text))
    {
      if i < |ms| {
        assert ns[i] == ms[i] && ns[i - 1] == ms[i - 1];
      }
    }
  }

  class ChatAssistant {
    var messages: seq<Message>
    var inputText: string
    var isLoading: bool
    var isOpen: bool

    /** The chat as first shown: the welcome message alone, empty input, closed. */
    constructor (now: Instant)
      ensures messages == [Message("1", WelcomeText, FromAssistant, now)]
      ensures Conversation(messages)
      ensures inputText == "" && !isLoading && !isOpen
    {
      messages := [Message("1", WelcomeText, FromAssistant, now)];
      inputText := "";
      isLoading := false;
      isOpen := false;
    }

    /**
     * `handleSendMessage`: ignore a blank input; otherwise append the typed
     * text as the user's message and then the reply to it, and clear the
     * input. `sent` and `replied` are the clock readings before and after the
     * simulated thinking time; they give the message ids and timestamps.
     */
    method HandleSendMessage(sent: Instant, replied: Instant)
      requires Conversation(messages)
      modifies this`messages, this`inputText, this`isLoading
      ensures Conversation(messages)
      ensures IsBlank(old(inputText)) ==>
        messages == old(messages) && inputText == old(inputText) && isLoading == old(isLoading)
      ensures !IsBlank(old(inputText)) ==>
        && messages == old(messages) + [
             Message(IntToString(sent), old(inputText), FromUser, sent),
             Message(IntToString(replied + 1), ReplyText(GetAIResponse(old(inputText))), FromAssistant, replied)]
        && inputText == "" && !isLoading
    {
      if IsBlank(inputText) {
        return;
      }
      var text := inputText;
      var userMessage := Message(IntToString(sent), text, FromUser, sent);
      messages := messages + [userMessage];
      inputText := "";
      isLoading := true;
      var aiResponse := Message(IntToString(replied + 1), ReplyText(GetAIResponse(text)), FromAssistant, replied);
      ConversationGrows(messages[..|messages| - 1], userMessage, aiResponse);
      assert messages[..|messages| - 1] + [userMessage, aiResponse] == messages + [aiResponse];
      messages := messages + [aiResponse];
      isLoading := false;
    }
  }
}
