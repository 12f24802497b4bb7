/** The content renderer of the public site, abstracted from HTML: the
    selection of the about highlights, the rendering of the two skill lists
    (icon and name defaults, and whether a name goes in as text or as HTML),
    the presence check that decides between rendering the portfolio document
    and replacing the main region with an error card, and the exceptions of
    the later render calls that still end in that card. A rendered container is the sequence of
    records it holds, not markup. */
module Content {
  import opened Common

  /** The `about` object: a missing key and an empty string are both falsy. */
  type About = map<string, string>

  function Field(about: About, key: string): string {
    if key in about then about[key] else ""
  }

  /** The key `highlight{i}_{part}`. */
  function HighlightKey(i: nat, part: string): string {
    "highlight" + NatToString(i) + "_" + part
  }

  datatype Highlight = Highlight(emoji: string, title: string, description: string)

  function HighlightAt(about: About, i: nat): Highlight {
    Highlight(Field(about, HighlightKey(i, "emoji")),
              Field(about, HighlightKey(i, "title")),
              Field(about, HighlightKey(i, "description")))
  }

  /** Highlight `i` is emitted only when its emoji, title and description are
      all truthy. */
  predicate Complete(about: About, i: nat) {
    var h := HighlightAt(about, i);
    h.emoji != "" && h.title != "" && h.description != ""
  }

  /** The complete highlights among indices 1 .. n - 1, in index order. */
  function SelectedBelow(about: About, n: nat): seq<Highlight> {
    if n <= 1 then []
    else SelectedBelow(about, n - 1) +
         (if Complete(about, n - 1) then [HighlightAt(about, n - 1)] else [])
  }

  /** The highlights `renderAboutHighlights` shows: the complete ones among
      1, 2 and 3. */
  function Selected(about: About): seq<Highlight> {
    SelectedBelow(about, 4)
  }

  /** The selection holds exactly the complete triples among indices below
      `n`, each with all three parts non-empty, and at most n - 1 of them. */
  lemma {:induction false} SelectedBelowSpec(about: About, n: nat)
    ensures |SelectedBelow(about, n)| <= if n == 0 then 0 else n - 1
    ensures forall h :: h in SelectedBelow(about, n) <==>
      exists i :: 1 <= i < n && Complete(about, i) && h == HighlightAt(about, i)
    ensures forall h :: h in SelectedBelow(about, n) ==>
      h.emoji != "" && h.title != "" && h.description != ""
  {
    if n > 1 {
      SelectedBelowSpec(about, n - 1);
    }
  }

  /** At most three highlights are shown, highlight i (1 <= i <= 3) is
      shown exactly when its triple is complete, and the shown ones keep the
      index order whichever of them are complete. */
  lemma SelectedSpec(about: About)
    ensures Selected(about) ==
      (if Complete(about, 1) then [HighlightAt(about, 1)] else []) +
      (if Complete(about, 2) then [HighlightAt(about, 2)] else []) +
      (if Complete(about, 3) then [HighlightAt(about, 3)] else [])
    ensures |Selected(about)| <= 3
    ensures forall i :: 1 <= i <= 3 ==>
      (Complete(about, i) ==> HighlightAt(about, i) in Selected(about))
    ensures forall h :: h in Selected(about) ==>
      exists i :: 1 <= i <= 3 && Complete(about, i) && h == HighlightAt(about, i)
  {
    SelectedBelowSpec(about, 4);
    assert SelectedBelow(about, 2) ==
      (if Complete(about, 1) then [HighlightAt(about, 1)] else []);
  }

  /** With all three triples complete, they are shown in index order. */
  lemma {:induction false} AllCompleteInOrder(about: About)
    requires Complete(about, 1) && Complete(about, 2) && Complete(about, 3)
    ensures Selected(about) == [HighlightAt(about, 1), HighlightAt(about, 2), HighlightAt(about, 3)]
  {
    assert SelectedBelow(about, 2) == [HighlightAt(about, 1)];
    assert SelectedBelow(about, 3) == [HighlightAt(about, 1), HighlightAt(about, 2)];
  }

  /** The loop of `renderAboutHighlights` that pushes the complete triples
      for i = 1 .. 3 into an array. */
  method CollectHighlights(about: About) returns (highlights: seq<Highlight>)
    ensures highlights == Selected(about)
  {
    highlights := [];
    var i := 1;
    while i <= 3
      invariant 1 <= i <= 4
      invariant highlights == SelectedBelow(about, i)
    {
      var emoji := Field(about, HighlightKey(i, "emoji"));
      var title := Field(about, HighlightKey(i, "title"));
      var description := Field(about, HighlightKey(i, "description"));
      if emoji != "" && title != "" && description != "" {
        highlights := highlights + [Highlight(emoji, title, description)];
      }
      i := i + 1;
    }
  }

  /** A skill as the document gives it; an empty string stands for a missing
      or falsy field. */
  datatype Skill = Skill(name: string, icon: string)

  /** The two skill lists; None when the field is missing or not an array. */
  datatype Skills = Skills(technical: Option<seq<Skill>>, soft: Option<seq<Skill>>)

  /** One rendered list item: the icon, which is always parsed as HTML, the
      name, and whether the name is appended as a text node (`nameAsText`)
      rather than written into the item's HTML together with the icon. */
  datatype SkillItem = SkillItem(icon: string, nameAsText: bool, name: string)

  const TechnicalIcon := "⚡"
  const SoftIcon := "✨"
  const UnknownSkill := "Unknown Skill"

  /** The prefix test that sends an icon down the `insertAdjacentHTML`
      branch: it starts with `<svg` or `<i`. */
  predicate IsMarkupIcon(icon: string) {
    StartsWith(icon, "<svg") || StartsWith(icon, "<i")
  }

  /** The list item for one skill, given the list's default icon. */
  function ItemFor(skill: Skill, defaultIcon: string): (r: SkillItem)
    requires defaultIcon != ""
    ensures r.icon != "" && r.name != ""
    ensures skill.icon != "" ==> r.icon == skill.icon
    ensures skill.icon == "" ==> r.icon == defaultIcon
    ensures skill.name != "" ==> r.name == skill.name
    ensures skill.name == "" ==> r.name == UnknownSkill
    ensures r.nameAsText <==> IsMarkupIcon(r.icon)
  {
    var icon := if skill.icon != "" then skill.icon else defaultIcon;
    var name := if skill.name != "" then skill.name else UnknownSkill;
    SkillItem(icon, IsMarkupIcon(icon), name)
  }

  /** The default icons fail the prefix test, so for a skill without an icon
      the name is written into the item's HTML, not appended as text. */
  lemma DefaultIconsWriteNameAsHtml(skill: Skill)
    requires skill.icon == ""
    ensures !ItemFor(skill, TechnicalIcon).nameAsText && !ItemFor(skill, SoftIcon).nameAsText
  {
    assert TechnicalIcon[0] != '<';
    assert SoftIcon[0] != '<';
  }

  /** One item per skill, in input order. */
  ghost predicate RendersList(items: seq<SkillItem>, skills: seq<Skill>, defaultIcon: string)
    requires defaultIcon != ""
  {
    |items| == |skills| &&
    forall k :: 0 <= k < |skills| ==> items[k] == ItemFor(skills[k], defaultIcon)
  }

  /** What a skill container holds after rendering: nothing when the list is
      missing, otherwise one item per skill. */
  ghost predicate RendersSkills(items: seq<SkillItem>, list: Option<seq<Skill>>, defaultIcon: string)
    requires defaultIcon != ""
  {
    if list.None? then items == [] else RendersList(items, list.value, defaultIcon)
  }

  /** The `forEach` loop that appends one item per skill to a cleared list. */
  method RenderSkillList(list: Option<seq<Skill>>, defaultIcon: string) returns (items: seq<SkillItem>)
    requires defaultIcon != ""
    ensures RendersSkills(items, list, defaultIcon)
  {
    items := [];
    if list.Some? {
      var skills := list.value;
      var k := 0;
      while k < |skills|
        invariant 0 <= k <= |skills|
        invariant RendersList(items, skills[..k], defaultIcon)
      {
        items := items + [ItemFor(skills[k], defaultIcon)];
        k := k + 1;
      }
      assert skills[..k] == skills;
    }
  }

  /** The portfolio document, reduced to what the presence check and the two
      modelled render functions read. The projects list is rendered by code
      outside this model; only its presence matters here. */
  datatype Document = Document(about: Option<About>, skills: Option<Skills>, hasProjects: bool)

  /** The exceptions the document can raise in the render calls that follow
      the skills, each the message of the first one thrown in its stretch of
      code (None when that stretch runs through):
      `early` in `renderProjects` and `renderInternships` (a null project);
      `thesis` in the loop of `renderThesis` (a truthy non-array);
      `certifications` in the loop of `renderCertifications`;
      `late` in the education, achievement and interest renderers and in the
      theme branch (a truthy `default_theme` that is not a string). */
  datatype Faults = Faults(early: Option<string>, thesis: Option<string>,
                           certifications: Option<string>, late: Option<string>)

  const NoFaults := Faults(None, None, None, None)

  /** The message a browser gives when `renderThesis` or
      `renderCertifications` sets `innerHTML` on a missing container. */
  const NullContainerMessage := "Cannot set properties of null (setting 'innerHTML')"

  /** The exception, if any, that ends the render calls after the skills,
      as written: `renderThesis` and `renderCertifications` dereference their
      container without checking that the page has it. */
  function SectionFault(f: Faults, hasThesis: bool, hasCertifications: bool): Option<string> {
    if f.early.Some? then f.early
    else if !hasThesis then Some(NullContainerMessage)
    else if f.thesis.Some? then f.thesis
    else if !hasCertifications then Some(NullContainerMessage)
    else if f.certifications.Some? then f.certifications
    else f.late
  }

  /** The render calls run through exactly when the page has both containers
      and the document raises nothing. */
  lemma SectionFaultSpec(f: Faults, hasThesis: bool, hasCertifications: bool)
    ensures SectionFault(f, hasThesis, hasCertifications).None? <==>
      f == NoFaults && hasThesis && hasCertifications
    ensures f.early.Some? ==> SectionFault(f, hasThesis, hasCertifications) == f.early
  {
  }

  /** A well-formed document on a page without a thesis container ends in
      the error card, after the highlights and skills were rendered. */
  lemma MissingThesisContainerFailsLoad(hasCertifications: bool)
    ensures SectionFault(NoFaults, false, hasCertifications) == Some(NullContainerMessage)
  {
  }

  /** The render calls with the container check the other renderers make
      (`if (!container) return;`) added to `renderThesis` and
      `renderCertifications`: a missing container skips its section, and its
      loop, which is what could throw, does not run. */
  function GuardedSectionFault(f: Faults, hasThesis: bool, hasCertifications: bool): Option<string> {
    if f.early.Some? then f.early
    else if hasThesis && f.thesis.Some? then f.thesis
    else if hasCertifications && f.certifications.Some? then f.certifications
    else f.late
  }

  /** With the guards, a missing container never fails the load, and a page
      that has both containers behaves as before. */
  lemma GuardedSectionFaultSpec(f: Faults, hasThesis: bool, hasCertifications: bool)
    ensures GuardedSectionFault(f, hasThesis, hasCertifications).None? <==>
      f.early.None? && (hasThesis ==> f.thesis.None?) &&
      (hasCertifications ==> f.certifications.None?) && f.late.None?
    ensures GuardedSectionFault(NoFaults, hasThesis, hasCertifications).None?
    ensures hasThesis && hasCertifications ==>
      GuardedSectionFault(f, hasThesis, hasCertifications) == SectionFault(f, hasThesis, hasCertifications)
  {
  }

  /** The outcome of the portfolio request, which the model takes as input. */
  datatype PortfolioFetch =
    | Received(doc: Document, faults: Faults)
    | HttpError(status: nat, statusText: string)
    | Failed(message: string)  // a network error or a body that is not JSON

  datatype LoadOutcome =
    | RenderAll(about: About, skills: Skills)
    | ErrorCard(message: string)

  const InvalidStructure := "Invalid data structure received from server"

  /** The decision of `fetchAndRenderPortfolioData`: render only when the
      response is OK and `about`, `skills` and `projects` are all present. */
  function Decide(response: PortfolioFetch): (r: LoadOutcome)
    ensures r.RenderAll? <==>
      response.Received? && response.doc.about.Some? &&
      response.doc.skills.Some? && response.doc.hasProjects
    ensures r.RenderAll? ==>
      r.about == response.doc.about.value && r.skills == response.doc.skills.value
    ensures response.Received? && r.ErrorCard? ==> r.message == InvalidStructure
  {
    match response
    case HttpError(status, text) =>
      ErrorCard("HTTP " + NatToString(status) + ": " + text)
    case Failed(message) => ErrorCard(message)
    case Received(doc, _) =>
      if doc.about.None? || doc.skills.None? || !doc.hasProjects then ErrorCard(InvalidStructure)
      else RenderAll(doc.about.value, doc.skills.value)
  }

  /** The rendered part of the public page. A container is None when the
      page has no element with its id. */
  class Page {
    var highlights: Option<seq<Highlight>>
    var technical: Option<seq<SkillItem>>
    var soft: Option<seq<SkillItem>>
    var hasMainContent: bool
    var errorCard: Option<string>  // the message of the error card, once shown
    var notices: seq<string>
    var loading: bool
    const hasThesisContainer: bool
    const hasCertificationsContainer: bool

    constructor (highlights: Option<seq<Highlight>>, technical: Option<seq<SkillItem>>,
                 soft: Option<seq<SkillItem>>, hasMainContent: bool,
                 hasThesisContainer: bool, hasCertificationsContainer: bool)
      ensures this.highlights == highlights && this.technical == technical && this.soft == soft
      ensures this.hasMainContent == hasMainContent && errorCard == None
      ensures this.hasThesisContainer == hasThesisContainer
      ensures this.hasCertificationsContainer == hasCertificationsContainer
      ensures notices == [] && !loading
    {
      this.highlights := highlights;
      this.technical := technical;
      this.soft := soft;
      this.hasMainContent := hasMainContent;
      this.hasThesisContainer := hasThesisContainer;
      this.hasCertificationsContainer := hasCertificationsContainer;
      errorCard := None;
      notices := [];
      loading := false;
    }

    /** `renderAboutHighlights`: clear the container, then append the
        selected highlights. The result does not depend on what the container
        held, so rendering twice equals rendering once. */
    method RenderAboutHighlights(about: About)
      modifies this`highlights
      ensures highlights == if old(highlights).None? then None else Some(Selected(about))
      ensures technical == old(technical) && soft == old(soft)
      ensures errorCard == old(errorCard) && notices == old(notices) && loading == old(loading)
    {
      if highlights.None? { return; }
      highlights := Some([]);
      var selected := CollectHighlights(about);
      var k := 0;
      while k < |selected|
        invariant 0 <= k <= |selected|
        invariant highlights == Some(selected[..k])
      {
        assert selected[..k + 1] == selected[..k] + [selected[k]];
        highlights := Some(highlights.value + [selected[k]]);
        k := k + 1;
      }
      assert selected[..k] == selected;
    }

    /** `renderSkills`: when both containers exist, clear them and render
        each list with its default icon; otherwise change nothing. */
    method RenderSkills(skills: Skills)
      modifies this`technical, this`soft
      ensures old(technical).None? || old(soft).None? ==>
        technical == old(technical) && soft == old(soft)
      ensures old(technical).Some? && old(soft).Some? ==>
        technical.Some? && RendersSkills(technical.value, skills.technical, TechnicalIcon) &&
        soft.Some? && RendersSkills(soft.value, skills.soft, SoftIcon)
      ensures highlights == old(highlights)
      ensures errorCard == old(errorCard) && notices == old(notices) && loading == old(loading)
    {
      if technical.None? || soft.None? { return; }
      var t := RenderSkillList(skills.technical, TechnicalIcon);
      var s := RenderSkillList(skills.soft, SoftIcon);
      technical := Some(t);
      soft := Some(s);
    }

    /** `fetchAndRenderPortfolioData`, for the two modelled sections: when
        the request or the presence check fails no render function runs and
        the main region is replaced by the error card; when a later render
        call throws, the highlights and skills are already rendered and the
        error card still replaces the main region; the loading indicator is
        off afterwards in every case. */
    method FetchAndRender(response: PortfolioFetch)
      modifies this`highlights, this`technical, this`soft, this`errorCard, this`notices, this`loading
      ensures Decide(response).ErrorCard? ==>
        highlights == old(highlights) && technical == old(technical) && soft == old(soft) &&
        errorCard == (if hasMainContent then Some(Decide(response).message) else old(errorCard)) &&
        notices == old(notices) + ["Failed to load portfolio content. Please refresh the page."]
      ensures Decide(response).RenderAll? ==>
        (highlights == if old(highlights).None? then None else Some(Selected(Decide(response).about)))
      ensures Decide(response).RenderAll? &&
              SectionFault(response.faults, hasThesisContainer, hasCertificationsContainer).None? ==>
        errorCard == old(errorCard) &&
        notices == old(notices) + ["Portfolio loaded successfully!"]
      ensures Decide(response).RenderAll? &&
              SectionFault(response.faults, hasThesisContainer, hasCertificationsContainer).Some? ==>
        errorCard == (if hasMainContent
                      then SectionFault(response.faults, hasThesisContainer, hasCertificationsContainer)
                      else old(errorCard)) &&
        notices == old(notices) + ["Failed to load portfolio content. Please refresh the page."]
      ensures Decide(response).RenderAll? && old(technical).Some? && old(soft).Some? ==>
        technical.Some? && RendersSkills(technical.value, Decide(response).skills.technical, TechnicalIcon) &&
        soft.Some? && RendersSkills(soft.value, Decide(response).skills.soft, SoftIcon)
      ensures Decide(response).RenderAll? && (old(technical).None? || old(soft).None?) ==>
        technical == old(technical) && soft == old(soft)
      ensures hasMainContent == old(hasMainContent) && !loading
    {
      loading := true;
      var outcome := Decide(response);
      match outcome {
        case ErrorCard(message) =>
          notices := notices + ["Failed to load portfolio content. Please refresh the page."];
          if hasMainContent {
            errorCard := Some(message);
          }
        case RenderAll(about, skills) =>
          RenderAboutHighlights(about);
          RenderSkills(skills);
          var fault := SectionFault(response.faults, hasThesisContainer, hasCertificationsContainer);
          if fault.Some? {
            // thrown by a later render call: the catch block runs
            notices := notices + ["Failed to load portfolio content. Please refresh the page."];
            if hasMainContent {
              errorCard := fault;
            }
          } else {
            notices := notices + ["Portfolio loaded successfully!"];
          }
      }
      loading := false;
    }
  }
}
