/** The page's own data, the four portfolio entries and the five sections,
    and what the filter, the toggle and the scroll-spy do with them. */
module Fixture {
  import opened Text
  import opened ProjectFilter
  import opened TagSelection
  import opened TagIndex
  import opened ActiveSection

  const SmartClass := Project(
    "Smart Class Solution (IoT + Face Recognition)",
    "Automated attendance & class analytics using Raspberry Pi camera, face recognition, and a Flask dashboard. Sends GSM/SMS alerts for exceptions and logs data for reports.",
    ["Python", "Raspberry Pi", "OpenCV", "Flask", "IoT"],
    "https://github.com/PankajGNSU")

  const CameraMonitor := Project(
    "Camera Monitor Application (WebRTC)",
    "Real-time phone-to-phone video streaming. Firebase handles signaling; WebRTC provides low-latency media. Built for simple remote monitoring.",
    ["Android", "WebRTC", "Firebase"],
    "https://github.com/PankajGNSU")

  const Hospital := Project(
    "Hospital Management System",
    "Java/Spring Boot back-end with REST APIs for patients, appointments, doctors, billing; MySQL for persistence; Docker Compose for easy run. Focus on validation and layered architecture.",
    ["Java", "Spring Boot", "REST", "MySQL", "Docker"],
    "https://github.com/PankajGNSU")

  const Portfolio := Project(
    "My Portfolio (this site)",
    "Responsive React + Tailwind UI with a left TOC, project search & tag filters. Deployed on GitHub Pages (can also deploy to Azure).",
    ["React", "Tailwind", "GitHub Pages", "Azure"],
    "https://pankajgnsu.github.io/pankaj-portfolio/")

  const AllProjects: seq<Project> := [SmartClass, CameraMonitor, Hospital, Portfolio]

  /** The tag buttons, in the order the page shows them. */
  const ExpectedTags: seq<string> := [
    "Android", "Azure", "Docker", "Firebase", "Flask", "GitHub Pages", "IoT", "Java", "MySQL",
    "OpenCV", "Python", "REST", "Raspberry Pi", "React", "Spring Boot", "Tailwind", "WebRTC"]

  const SectionIds: seq<string> := ["top", "about", "skills", "projects", "contact"]

  /** Which projects carry "Java" and "React". */
  lemma JavaAndReactTagged()
    ensures "Java" !in SmartClass.tags && "Java" !in CameraMonitor.tags
    ensures "Java" in Hospital.tags && "Java" !in Portfolio.tags && "React" !in Hospital.tags
  {
  }

  /** A list of four of which only the third carries the selected tags
      shows at most the third, and shows it when the query matches it. */
  lemma OnlyThirdOfFour(p1: Project, p2: Project, p3: Project, p4: Project, query: string, selected: seq<string>)
    requires !MatchesTags(p1, selected) && !MatchesTags(p2, selected)
    requires MatchesQuery(p3, query) && MatchesTags(p3, selected) && !MatchesTags(p4, selected)
    ensures Filter([p1, p2, p3, p4], query, selected) == [p3]
  {
    assert Filter([p4], query, selected) == [] by {
      FilterCons(p4, [], query, selected);
      assert [p4] + [] == [p4];
    }
    assert Filter([p3, p4], query, selected) == [p3] by {
      FilterCons(p3, [p4], query, selected);
      assert [p3] + [p4] == [p3, p4];
    }
    assert Filter([p2, p3, p4], query, selected) == [p3] by {
      FilterCons(p2, [p3, p4], query, selected);
      assert [p2] + [p3, p4] == [p2, p3, p4];
    }
    FilterCons(p1, [p2, p3, p4], query, selected);
    assert [p1] + [p2, p3, p4] == [p1, p2, p3, p4];
  }

  /** A list of four none of which carries the selected tags shows nothing. */
  lemma NoneOfFour(p1: Project, p2: Project, p3: Project, p4: Project, query: string, selected: seq<string>)
    requires !MatchesTags(p1, selected) && !MatchesTags(p2, selected)
    requires !MatchesTags(p3, selected) && !MatchesTags(p4, selected)
    ensures Filter([p1, p2, p3, p4], query, selected) == []
  {
    assert Filter([p4], query, selected) == [] by {
      FilterCons(p4, [], query, selected);
      assert [p4] + [] == [p4];
    }
    assert Filter([p3, p4], query, selected) == [] by {
      FilterCons(p3, [p4], query, selected);
      assert [p3] + [p4] == [p3, p4];
    }
    assert Filter([p2, p3, p4], query, selected) == [] by {
      FilterCons(p2, [p3, p4], query, selected);
      assert [p2] + [p3, p4] == [p2, p3, p4];
    }
    FilterCons(p1, [p2, p3, p4], query, selected);
    assert [p1] + [p2, p3, p4] == [p1, p2, p3, p4];
  }

  /** Only the hospital system is tagged "Java". */
  lemma JavaSelectsHospital()
    ensures Filter(AllProjects, "", ["Java"]) == [Hospital]
  {
    JavaAndReactTagged();
    var sel := ["Java"];
    MissingTagHides(SmartClass, sel, "Java");
    MissingTagHides(CameraMonitor, sel, "Java");
    MissingTagHides(Portfolio, sel, "Java");
    assert MatchesTags(Hospital, sel);
    EmptyQueryMatches(Hospital);
    OnlyThirdOfFour(SmartClass, CameraMonitor, Hospital, Portfolio, "", ["Java"]);
  }

  /** No project is tagged both "Java" and "React". */
  lemma JavaAndReactSelectNothing()
    ensures Filter(AllProjects, "", ["Java", "React"]) == []
  {
    JavaAndReactTagged();
    var sel := ["Java", "React"];
    MissingTagHides(SmartClass, sel, "Java");
    MissingTagHides(CameraMonitor, sel, "Java");
    MissingTagHides(Hospital, sel, "React");
    MissingTagHides(Portfolio, sel, "Java");
    NoneOfFour(SmartClass, CameraMonitor, Hospital, Portfolio, "", ["Java", "React"]);
  }

  lemma WebrtcLowerCase()
    ensures Lower("webrtc") == Lower("WebRTC")
  {
  }

  /** Searching "webrtc" finds the camera monitor, whose tag "WebRTC" it
      spells in another case. */
  lemma WebrtcFindsCameraMonitor()
    ensures CameraMonitor in Filter(AllProjects, "webrtc", [])
  {
    WebrtcLowerCase();
    assert CameraMonitor in AllProjects && "WebRTC" in CameraMonitor.tags;
    TagQueryShows(AllProjects, CameraMonitor, "WebRTC", "webrtc", []);
  }

  lemma ExpectedTagsSorted()
    ensures StrictlySorted(ExpectedTags)
  {
    var s := ExpectedTags;
    assert LexLess(s[0], s[1]) && LexLess(s[1], s[2]) && LexLess(s[2], s[3]) && LexLess(s[3], s[4]);
    assert LexLess(s[4], s[5]) && LexLess(s[5], s[6]) && LexLess(s[6], s[7]) && LexLess(s[7], s[8]);
    assert LexLess(s[8], s[9]) && LexLess(s[9], s[10]) && LexLess(s[10], s[11]) && LexLess(s[11], s[12]);
    assert LexLess(s[12], s[13]) && LexLess(s[13], s[14]) && LexLess(s[14], s[15]) && LexLess(s[15], s[16]);
    AdjacentStrictlySorted(s);
  }

  lemma ExpectedTagsExact()
    ensures forall t :: t in ExpectedTags <==> exists p :: p in AllProjects && t in p.tags
  {
    forall t ensures t in ExpectedTags <==> exists p :: p in AllProjects && t in p.tags {
    }
  }

  /** The page's tag index: upper-case letters sort before lower-case ones,
      so "REST" comes before "Raspberry Pi". */
  lemma AllTagsOfPage()
    ensures AllTags(AllProjects) == ExpectedTags
  {
    ExpectedTagsSorted();
    ExpectedTagsExact();
    AllTagsUnique(AllProjects, ExpectedTags);
  }

  /** "REACT" and "react" show the same cards. */
  lemma ReactQueryIgnoresCase(selected: seq<string>)
    ensures Filter(AllProjects, "REACT", selected) == Filter(AllProjects, "react", selected)
  {
    FilterCaseInsensitive(AllProjects, "REACT", "react", selected);
  }

  /** Clicking the only selected tag empties the selection. */
  lemma ToggleDockerOff()
    ensures Toggle(["Docker"], "Docker") == []
  {
  }

  /** A batch in which "skills" is the last intersecting entry highlights it. */
  lemma SkillsBecomesActive()
    ensures AfterBatch(Initial(SectionIds),
      [Entry("about", true), Entry("skills", true), Entry("projects", false)]) == Some("skills")
  {
  }
}
