/** The prompt builders of `prompt_templates`: templates are sequences of fixed
    text and named placeholders, `str.format` fills the placeholders from a map,
    and the builders choose a template and the values that go into it. */
module Prompts {
  import opened Common

  /** A piece of a template: fixed wording, or a `{name}` placeholder. */
  datatype Piece = Lit(text: string) | Hole(name: string)

  type Template = seq<Piece>

  /** Every placeholder of `t` has a value in `p` (otherwise `str.format` raises). */
  predicate Bound(t: Template, p: map<string, string>) {
    forall i | 0 <= i < |t| :: t[i].Hole? ==> t[i].name in p
  }

  function PieceText(x: Piece, p: map<string, string>): string
    requires x.Hole? ==> x.name in p
  {
    match x
    case Lit(text) => text
    case Hole(name) => p[name]
  }

  /** `template.format(**p)`. */
  function Render(t: Template, p: map<string, string>): string
    requires Bound(t, p)
  {
    if |t| == 0 then "" else PieceText(t[0], p) + Render(t[1..], p)
  }

  /** Rendering a template is rendering its two halves. */
  lemma {:induction false} RenderSplit(t: Template, p: map<string, string>, i: nat)
    requires Bound(t, p) && i <= |t|
    ensures Render(t, p) == Render(t[..i], p) + Render(t[i..], p)
  {
    if i > 0 {
      assert t[..i][1..] == t[1..][..i - 1];
      assert t[1..][i - 1..] == t[i..];
      RenderSplit(t[1..], p, i - 1);
    } else {
      assert t[..0] == [];
      assert t[0..] == t;
    }
  }

  /** A placeholder's value appears in the rendered text where the placeholder stood. */
  lemma HoleRendered(t: Template, p: map<string, string>, i: nat)
    requires Bound(t, p) && i < |t| && t[i].Hole?
    ensures Render(t, p) == Render(t[..i], p) + p[t[i].name] + Render(t[i + 1..], p)
  {
    RenderSplit(t, p, i);
    assert t[i..][1..] == t[i + 1..];
  }

  /** A value whose placeholder the template lacks has no influence on the text. */
  lemma {:induction false} RenderIgnores(t: Template, p: map<string, string>, k: string, v: string)
    requires Bound(t, p)
    requires forall i | 0 <= i < |t| :: t[i] != Hole(k)
    ensures Render(t, p[k := v]) == Render(t, p)
  {
    if |t| > 0 {
      RenderIgnores(t[1..], p, k, v);
    }
  }

  // ---------------------------------------------------------------------------
  // Dictionary values

  /** A value of a dictionary read from JSON (a proposal, a block, the settings):
      a string, `null`, a boolean, a number, an array or an object. A number,
      array or object carries the text `str()` gives for it and whether it is
      zero or empty. */
  datatype Json =
    | JStr(s: string)
    | JNull
    | JBool(b: bool)
    | JNum(text: string, isZero: bool)
    | JArray(text: string, isEmpty: bool)
    | JObject(text: string, isEmpty: bool)

  /** `str(v)`, which is also what an f-string or `str.format` inserts. */
  function Str(v: Json): string {
    match v
    case JStr(s) => s
    case JNull => "None"
    case JBool(b) => if b then "True" else "False"
    case JNum(text, _) => text
    case JArray(text, _) => text
    case JObject(text, _) => text
  }

  /** Python's truth value of `v`, as `if v:` tests it. */
  predicate Truthy(v: Json) {
    match v
    case JStr(s) => s != ""
    case JNull => false
    case JBool(b) => b
    case JNum(_, isZero) => !isZero
    case JArray(_, isEmpty) => !isEmpty
    case JObject(_, isEmpty) => !isEmpty
  }

  /** `d.get(key, "")`. */
  function Field(d: map<string, Json>, key: string): (v: Json)
    ensures key in d ==> v == d[key]
    ensures key !in d ==> v == JStr("")
  {
    if key in d then d[key] else JStr("")
  }

  /** `d.get(key, "")` as it is inserted into text. */
  function Get(d: map<string, Json>, key: string): (v: string)
    ensures key in d ==> v == Str(d[key])
    ensures key !in d ==> v == ""
  {
    Str(Field(d, key))
  }

  /** `d.get(key, default)` with a string default, as it is inserted into text. */
  function GetOr(d: map<string, Json>, key: string, default: string): (v: string)
    ensures key in d ==> v == Str(d[key])
    ensures key !in d ==> v == default
  {
    if key in d then Str(d[key]) else default
  }

  // ---------------------------------------------------------------------------
  // Design system

  /** The design-system template's placeholders, in order; the fixed wording
      between them is abbreviated to section labels. */
  const DesignSystemTemplate: Template := [
    Lit("[designer role]\n[language] "), Hole("language"),
    Lit("\n[do not show brand] "), Hole("brand_name"),
    Lit("\n[background] "), Hole("background_color"),
    Lit("\n[primary] "), Hole("primary_color"),
    Lit("\n[secondary] "), Hole("secondary_color"),
    Lit("\n[accent] "), Hole("accent_color"),
    Lit("\n[text] "), Hole("text_color"),
    Lit("\n[danger] "), Hole("danger_color"),
    Lit("\n[style] "), Hole("illustration_style"),
    Lit("\n[line] "), Hole("line_weight"),
    Lit("\n[characters] "), Hole("character_style"),
    Lit("\n[fill] "), Hole("fill_style"),
    Lit("\n[card] "), Hole("card_style"),
    Lit("\n[font] "), Hole("font_family"),
    Lit("\n[spacing] "), Hole("spacing"),
    Lit("\n[prohibited]\n"), Hole("prohibited_elements"),
    Lit("\n[notes]\n"), Hole("additional_notes"),
    Lit("\n[reference analysis]\n"), Hole("ref_image_analysis"),
    Lit("\n")
  ]

  /** The values `render_design_system` formats with: each setting from the
      config when present, else its default. */
  function DesignParams(config: map<string, Json>): (p: map<string, string>)
    ensures Bound(DesignSystemTemplate, p)
  {
    map[
      "brand_name" := GetOr(config, "brand_name", ""),
      "language" := GetOr(config, "language", "Japanese"),
      "background_color" := GetOr(config, "background_color", "#FFFFFF"),
      "primary_color" := GetOr(config, "primary_color", "#3B82F6"),
      "secondary_color" := GetOr(config, "secondary_color", "#10B981"),
      "accent_color" := GetOr(config, "accent_color", "#F59E0B"),
      "text_color" := GetOr(config, "text_color", "#1F2937"),
      "danger_color" := GetOr(config, "danger_color", "#E74A3B"),
      "illustration_style" := GetOr(config, "illustration_style", "flat minimal"),
      "line_weight" := GetOr(config, "line_weight", "2.8〜3.2px統一"),
      "character_style" := GetOr(config, "character_style", "4頭身前後、記号的表現"),
      "fill_style" := GetOr(config, "fill_style", "フラット塗り"),
      "card_style" := GetOr(config, "card_style", "白背景 + 角丸28px"),
      "font_family" := GetOr(config, "font_family", "Noto Sans JP Medium"),
      "spacing" := GetOr(config, "spacing", "広めに均等"),
      "prohibited_elements" := GetOr(config, "prohibited_elements", ""),
      "additional_notes" := GetOr(config, "additional_notes", ""),
      "ref_image_analysis" := GetOr(config, "ref_image_analysis", "（参照画像なし）")
    ]
  }

  /** `render_design_system(config)`. */
  function RenderDesignSystem(config: map<string, Json>): string {
    Render(DesignSystemTemplate, DesignParams(config))
  }

  /** The six palette colours: the config's when set, and otherwise `#FFFFFF`,
      `#3B82F6`, `#10B981`, `#F59E0B`, `#1F2937` and `#E74A3B`. */
  lemma DesignColourDefaults(config: map<string, Json>)
    ensures var p := DesignParams(config);
      && p["background_color"] == (if "background_color" in config then Str(config["background_color"]) else "#FFFFFF")
      && p["primary_color"] == (if "primary_color" in config then Str(config["primary_color"]) else "#3B82F6")
      && p["secondary_color"] == (if "secondary_color" in config then Str(config["secondary_color"]) else "#10B981")
      && p["accent_color"] == (if "accent_color" in config then Str(config["accent_color"]) else "#F59E0B")
      && p["text_color"] == (if "text_color" in config then Str(config["text_color"]) else "#1F2937")
      && p["danger_color"] == (if "danger_color" in config then Str(config["danger_color"]) else "#E74A3B")
  {
    BaseColourDefaults(config);
    RoleColourDefaults(config);
  }

  lemma BaseColourDefaults(config: map<string, Json>)
    ensures var p := DesignParams(config);
      && p["background_color"] == (if "background_color" in config then Str(config["background_color"]) else "#FFFFFF")
      && p["primary_color"] == (if "primary_color" in config then Str(config["primary_color"]) else "#3B82F6")
      && p["secondary_color"] == (if "secondary_color" in config then Str(config["secondary_color"]) else "#10B981")
  {
  }

  lemma RoleColourDefaults(config: map<string, Json>)
    ensures var p := DesignParams(config);
      && p["accent_color"] == (if "accent_color" in config then Str(config["accent_color"]) else "#F59E0B")
      && p["text_color"] == (if "text_color" in config then Str(config["text_color"]) else "#1F2937")
      && p["danger_color"] == (if "danger_color" in config then Str(config["danger_color"]) else "#E74A3B")
  {
  }

  /** A setting the config provides is used as given, for every setting the
      template has a place for. */
  lemma DesignConfigWins(config: map<string, Json>)
    ensures forall k | k in DesignParams(config) && k in config :: DesignParams(config)[k] == Str(config[k])
  {
  }

  /** The danger colour a config sets, or `#E74A3B`, is written into the design-system text. */
  lemma DangerColorRendered(config: map<string, Json>)
    ensures exists a, b :: RenderDesignSystem(config) == a + GetOr(config, "danger_color", "#E74A3B") + b
  {
    var p := DesignParams(config);
    DangerSlot();
    HoleOccurs(DesignSystemTemplate, p, 15);
    var a, b :| Render(DesignSystemTemplate, p) == a + p["danger_color"] + b;
    RoleColourDefaults(config);
    assert RenderDesignSystem(config) == a + GetOr(config, "danger_color", "#E74A3B") + b;
  }

  lemma DangerSlot()
    ensures 15 < |DesignSystemTemplate| && DesignSystemTemplate[15] == Hole("danger_color")
  {
  }

  /** Some text before and after a placeholder's value make up the rendering. */
  lemma HoleOccurs(t: Template, p: map<string, string>, i: nat)
    requires Bound(t, p) && i < |t| && t[i].Hole?
    ensures exists a, b :: Render(t, p) == a + p[t[i].name] + b
  {
    HoleRendered(t, p, i);
  }

  // ---------------------------------------------------------------------------
  // Blocks

  /** An entry of `proposal["blocks"]`: a dictionary of strings, or any other
      value, with `repr` standing for what `str()` makes of it. */
  datatype Block = DictBlock(fields: map<string, Json>, repr: string) | OtherBlock(repr: string)

  /** One image proposal: its fields and its block list. */
  datatype Proposal = Proposal(fields: map<string, Json>, blocks: seq<Block>)

  /** `- 【heading】description`, with `　→ イラスト: …` when there is an illustration. */
  function DictLine(fields: map<string, Json>): string {
    var line := "- 【" + Get(fields, "heading") + "】" + Get(fields, "description");
    var illust := Field(fields, "illustration");
    if Truthy(illust) then line + "　→ イラスト: " + Str(illust) else line
  }

  /** `"- " + str(b)`. */
  function ReprLine(b: Block): string {
    "- " + b.repr
  }

  function DictLines(blocks: seq<Block>): (r: Option<seq<string>>)
    ensures r.Some? <==> forall i | 0 <= i < |blocks| :: blocks[i].DictBlock?
    ensures r.Some? ==> |r.value| == |blocks| && forall i | 0 <= i < |blocks| :: r.value[i] == DictLine(blocks[i].fields)
  {
    if |blocks| == 0 then Some([])
    else if blocks[0].OtherBlock? then None
    else
      var rest := DictLines(blocks[1..]);
      if rest.None? then None else Some([DictLine(blocks[0].fields)] + rest.value)
  }

  function ReprLines(blocks: seq<Block>): (r: seq<string>)
    ensures |r| == |blocks| && forall i | 0 <= i < |blocks| :: r[i] == ReprLine(blocks[i])
  {
    seq(|blocks|, i requires 0 <= i < |blocks| => ReprLine(blocks[i]))
  }

  /** `_build_blocks_text`: `None` when the first block is a dictionary but a later
      one is not (Python's `b.get` raises on it). */
  function BuildBlocksText(blocks: seq<Block>): (r: Option<string>)
    ensures |blocks| == 0 ==> r == Some("")
    ensures r.None? <==> |blocks| > 0 && blocks[0].DictBlock? && exists i | 0 <= i < |blocks| :: blocks[i].OtherBlock?
  {
    if |blocks| > 0 && blocks[0].DictBlock? then
      var lines := DictLines(blocks);
      if lines.None? then None else Some(Join(lines.value, '\n'))
    else Some(Join(ReprLines(blocks), '\n'))
  }

  /** No field and no `str()` of a block holds a line break. */
  predicate SingleLine(b: Block) {
    '\n' !in b.repr && (b.DictBlock? ==> forall k | k in b.fields :: '\n' !in Str(b.fields[k]))
  }

  lemma DictLineSingle(fields: map<string, Json>)
    requires forall k | k in fields :: '\n' !in Str(fields[k])
    ensures '\n' !in DictLine(fields)
  {
  }

  /** Splitting the block text at line breaks gives back one line per block:
      the dictionary form when the first block is a dictionary, `- str(b)` otherwise. */
  lemma BlocksTextLines(blocks: seq<Block>)
    requires |blocks| > 0 && forall i | 0 <= i < |blocks| :: SingleLine(blocks[i])
    requires BuildBlocksText(blocks).Some?
    ensures var lines := Split(BuildBlocksText(blocks).value, '\n');
      && |lines| == |blocks|
      && forall i | 0 <= i < |blocks| ::
           lines[i] == if blocks[0].DictBlock? then DictLine(blocks[i].fields) else ReprLine(blocks[i])
  {
    if blocks[0].DictBlock? {
      var ls := DictLines(blocks).value;
      forall i | 0 <= i < |ls| ensures '\n' !in ls[i] {
        DictLineSingle(blocks[i].fields);
      }
      SplitJoin(ls, '\n');
    } else {
      var ls := ReprLines(blocks);
      SplitJoin(ls, '\n');
    }
  }

  /** The illustration note is appended exactly when the illustration is truthy:
      present and not an empty string, `null`, `false`, zero or an empty
      container. The note quotes `str()` of the value. */
  lemma IllustrationNote(fields: map<string, Json>)
    ensures var base := "- 【" + Get(fields, "heading") + "】" + Get(fields, "description");
      && (("illustration" !in fields || !Truthy(fields["illustration"])) ==> DictLine(fields) == base)
      && ("illustration" in fields && Truthy(fields["illustration"]) ==>
            DictLine(fields) == base + "　→ イラスト: " + Str(fields["illustration"]))
  {
  }

  /** A string illustration is truthy exactly when it is not empty. */
  lemma StringTruthy(s: string)
    ensures Truthy(JStr(s)) <==> s != ""
  {
  }

  /** `null` fields: the heading reads `None` and no note is added. */
  lemma NullFieldsLine()
    ensures DictLine(map["heading" := JNull, "illustration" := JNull]) == "- 【None】"
  {
    var f := map["heading" := JNull, "illustration" := JNull];
    assert Get(f, "heading") == "None";
    assert Get(f, "description") == "";
    assert !Truthy(Field(f, "illustration"));
  }

  // ---------------------------------------------------------------------------
  // MV proposal prompt

  const MvProposalTemplate: Template := [
    Lit("[MV copywriter role]\n== title ==\n"), Hole("article_title"),
    Lit("\n== body ==\n"), Hole("article_text"),
    Lit("\n[fixed layout, slots, JSON format, rules]\n")
  ]

  /** How much of the article the MV proposal prompt quotes. */
  const MvArticleLimit := 3000

  /** `render_mv_proposal_prompt`. */
  function RenderMvProposal(title: string, article: string): string {
    var p := map["article_title" := title, "article_text" := Prefix(article, MvArticleLimit)];
    assert Bound(MvProposalTemplate, p);
    Render(MvProposalTemplate, p)
  }

  /** Only the first 3000 characters of the article reach the prompt: two articles
      that agree on them give the same prompt, and a shorter article is quoted whole. */
  lemma MvProposalTruncates(title: string, a: string, b: string)
    ensures |a| >= MvArticleLimit && |b| >= MvArticleLimit && a[..MvArticleLimit] == b[..MvArticleLimit]
      ==> RenderMvProposal(title, a) == RenderMvProposal(title, b)
    ensures |a| <= MvArticleLimit ==> exists x, y :: RenderMvProposal(title, a) == x + a + y
  {
    var p := map["article_title" := title, "article_text" := Prefix(a, MvArticleLimit)];
    assert Bound(MvProposalTemplate, p);
    if |a| <= MvArticleLimit {
      assert Prefix(a, MvArticleLimit) == a;
      assert MvProposalTemplate[3] == Hole("article_text");
      HoleRendered(MvProposalTemplate, p, 3);
    }
  }

  // ---------------------------------------------------------------------------
  // MV generation prompt

  const MvSpecTemplate: Template := [
    Lit("[same design as reference]\n[follow the spec]\n"), Hole("design_spec"),
    Lit("\n[hook] "), Hole("hook_text"), Lit("\n[title] "), Hole("main_title"),
    Lit("\n[subtitle] "), Hole("subtitle"), Lit("\n[band] "), Hole("band_text"),
    Lit("\n[supplement] "), Hole("supplement_text"), Lit("\n[person] "), Hole("person_description"),
    Lit("\n[all text in] "), Hole("language"), Lit("\n")
  ]

  const MvRefTemplate: Template := [
    Lit("[same design as reference, imitate everything]\n"),
    Lit("\n[hook] "), Hole("hook_text"), Lit("\n[title] "), Hole("main_title"),
    Lit("\n[subtitle] "), Hole("subtitle"), Lit("\n[band] "), Hole("band_text"),
    Lit("\n[supplement] "), Hole("supplement_text"), Lit("\n[person] "), Hole("person_description"),
    Lit("\n[all text in] "), Hole("language"), Lit("\n")
  ]

  const MvFullTemplate: Template := [
    Lit("[MV request]\n[layout] "), Hole("hook_text"), Lit(" "), Hole("main_title"),
    Lit(" "), Hole("subtitle"), Lit(" "), Hole("band_text"), Lit(" "), Hole("supplement_text"),
    Lit("\n[person]\n"), Hole("person_description"),
    Lit("\n[decoration rules, font in] "), Hole("language"),
    Lit("\n[aspect ratio] "), Hole("aspect_ratio"),
    Lit("\n[all text in] "), Hole("language"), Lit("\n")
  ]

  /** The three MV generation templates. */
  datatype MvKind = WithSpec | WithRef | Full

  function MvTemplate(k: MvKind): Template {
    match k
    case WithSpec => MvSpecTemplate
    case WithRef => MvRefTemplate
    case Full => MvFullTemplate
  }

  /** The template `render_mv_generation_prompt` picks. */
  function MvKindFor(hasReferenceImages: bool, designSpec: string): MvKind {
    if hasReferenceImages then (if designSpec != "" then WithSpec else WithRef) else Full
  }

  /** The six slot texts, each `""` when the proposal lacks it. */
  function MvSlots(mv: map<string, Json>, language: string): (p: map<string, string>)
    ensures p.Keys == {"hook_text", "main_title", "subtitle", "band_text", "supplement_text", "person_description", "language"}
    ensures forall f | f in p && f != "language" :: p[f] == Get(mv, f)
    ensures p["language"] == language
  {
    map["hook_text" := Get(mv, "hook_text"), "main_title" := Get(mv, "main_title"),
        "subtitle" := Get(mv, "subtitle"), "band_text" := Get(mv, "band_text"),
        "supplement_text" := Get(mv, "supplement_text"),
        "person_description" := Get(mv, "person_description"), "language" := language]
  }

  function MvParams(k: MvKind, mv: map<string, Json>, aspectRatio: string, language: string, designSpec: string): (p: map<string, string>)
    ensures Bound(MvTemplate(k), p)
  {
    match k
    case WithSpec => MvSlots(mv, language)["design_spec" := designSpec]
    case WithRef => MvSlots(mv, language)
    case Full => MvSlots(mv, language)["aspect_ratio" := aspectRatio]
  }

  /** `render_mv_generation_prompt`; the design system, the design analysis and the
      site colours it is also given are not used. */
  function RenderMvGeneration(designSystem: string, mv: map<string, Json>, aspectRatio: string, language: string,
                              hasReferenceImages: bool, mvDesignAnalysis: string, designSpec: string): string {
    var k := MvKindFor(hasReferenceImages, designSpec);
    Render(MvTemplate(k), MvParams(k, mv, aspectRatio, language, designSpec))
  }

  /** The spec template exactly when there are reference images and a spec, the
      reference-only template exactly when there are reference images and no spec,
      the full template exactly when there are none. */
  lemma MvTemplateChoice(hasReferenceImages: bool, designSpec: string)
    ensures MvKindFor(hasReferenceImages, designSpec) == WithSpec <==> hasReferenceImages && designSpec != ""
    ensures MvKindFor(hasReferenceImages, designSpec) == WithRef <==> hasReferenceImages && designSpec == ""
    ensures MvKindFor(hasReferenceImages, designSpec) == Full <==> !hasReferenceImages
  {
  }

  /** The spec is quoted in the prompt when it is used, and has no influence
      otherwise; the design-system text never has any. */
  lemma MvSpecUse(ds1: string, ds2: string, mv: map<string, Json>, aspectRatio: string, language: string,
                  hasReferenceImages: bool, analysis: string, spec: string)
    ensures hasReferenceImages && spec != "" ==>
      exists x, y :: RenderMvGeneration(ds1, mv, aspectRatio, language, hasReferenceImages, analysis, spec) == x + spec + y
    ensures RenderMvGeneration(ds1, mv, aspectRatio, language, hasReferenceImages, analysis, spec)
         == RenderMvGeneration(ds2, mv, aspectRatio, language, hasReferenceImages, "", spec)
  {
    if hasReferenceImages && spec != "" {
      var p := MvParams(WithSpec, mv, aspectRatio, language, spec);
      assert MvSpecTemplate[1] == Hole("design_spec");
      HoleRendered(MvSpecTemplate, p, 1);
    }
  }

  /** Without reference images a non-empty spec changes nothing: the full template
      has no place for it. */
  lemma MvFullIgnoresSpec(mv: map<string, Json>, aspectRatio: string, language: string, spec: string)
    ensures RenderMvGeneration("", mv, aspectRatio, language, false, "", spec)
         == RenderMvGeneration("", mv, aspectRatio, language, false, "", "")
  {
  }

  // ---------------------------------------------------------------------------
  // Image generation prompt

  const GenerationTemplate: Template := [
    Hole("design_system_prompt"),
    Lit("\n\n[generation request for] "), Hole("layout_type"),
    Lit("\n[reader] "), Hole("reader_mindset"),
    Lit("\n[purpose] "), Hole("purpose"),
    Lit("\n[conclusion] "), Hole("conclusion"),
    Lit("\n[blocks]\n"), Hole("blocks_text"),
    Lit("\n[composition]\n"), Hole("composition_description"),
    Lit("\n[illustration and text rules]\n[aspect ratio] "), Hole("aspect_ratio"),
    Lit("\n[palette, hierarchy, text in] "), Hole("language"),
    Lit("\n")
  ]

  const GenerationRefTemplate: Template := [
    Lit("[same style as reference, as] "), Hole("layout_type"),
    Lit("\n[purpose] "), Hole("purpose"),
    Lit("\n[conclusion] "), Hole("conclusion"),
    Lit("\n\n"), Hole("blocks_text"),
    Lit("\n\n[composition] "), Hole("composition_description"),
    Lit("\n[illustrations, text in] "), Hole("language"),
    Lit("\n")
  ]

  /** The values shared by both generation templates; missing fields are `""`. */
  function GenerationParams(proposal: Proposal, blocksText: string, language: string): (p: map<string, string>)
    ensures p.Keys == {"layout_type", "purpose", "conclusion", "blocks_text", "composition_description", "language"}
    ensures Bound(GenerationRefTemplate, p)
    ensures p["purpose"] == Get(proposal.fields, "purpose") && p["conclusion"] == Get(proposal.fields, "conclusion")
    ensures p["layout_type"] == Get(proposal.fields, "layout_type")
    ensures p["composition_description"] == Get(proposal.fields, "composition_description")
    ensures p["blocks_text"] == blocksText && p["language"] == language
  {
    map["layout_type" := Get(proposal.fields, "layout_type"), "purpose" := Get(proposal.fields, "purpose"),
        "conclusion" := Get(proposal.fields, "conclusion"), "blocks_text" := blocksText,
        "composition_description" := Get(proposal.fields, "composition_description"), "language" := language]
  }

  function FullParams(designSystem: string, proposal: Proposal, blocksText: string, aspectRatio: string, language: string): (p: map<string, string>)
    ensures "design_system_prompt" in p && p["design_system_prompt"] == designSystem
    ensures Bound(GenerationTemplate, p)
  {
    GenerationParams(proposal, blocksText, language)["design_system_prompt" := designSystem]
      ["reader_mindset" := Get(proposal.fields, "reader_mindset")]["aspect_ratio" := aspectRatio]
  }

  /** `render_generation_prompt`; `None` when the block list cannot be rendered. */
  function RenderGeneration(designSystem: string, proposal: Proposal, aspectRatio: string, language: string,
                            hasReferenceImages: bool): Option<string> {
    var blocks := BuildBlocksText(proposal.blocks);
    if blocks.None? then None
    else if hasReferenceImages then Some(Render(GenerationRefTemplate, GenerationParams(proposal, blocks.value, language)))
    else Some(Render(GenerationTemplate, FullParams(designSystem, proposal, blocks.value, aspectRatio, language)))
  }

  /** Without reference images the prompt opens with the design-system text; with
      them the design system has no influence on the prompt. */
  lemma GenerationDesignSystem(ds1: string, ds2: string, proposal: Proposal, aspectRatio: string, language: string, hasRef: bool)
    requires BuildBlocksText(proposal.blocks).Some?
    ensures !hasRef ==> StartsWith(RenderGeneration(ds1, proposal, aspectRatio, language, hasRef).value, ds1)
    ensures hasRef ==>
      RenderGeneration(ds1, proposal, aspectRatio, language, hasRef) == RenderGeneration(ds2, proposal, aspectRatio, language, hasRef)
  {
    if !hasRef {
      var p := FullParams(ds1, proposal, BuildBlocksText(proposal.blocks).value, aspectRatio, language);
      assert GenerationTemplate[0] == Hole("design_system_prompt");
      RenderOpensWith(GenerationTemplate, p);
    }
  }

  /** A template that opens with a placeholder renders to text opening with its value. */
  lemma RenderOpensWith(t: Template, p: map<string, string>)
    requires Bound(t, p) && |t| > 0 && t[0].Hole?
    ensures StartsWith(Render(t, p), p[t[0].name])
  {
    var v := p[t[0].name];
    var s := Render(t, p);
    assert s == v + Render(t[1..], p);
    assert s[..|v|] == v;
  }

  /** A proposal that lacks the reader field renders exactly as one whose reader
      field is empty. */
  lemma MissingFieldIsEmpty(ds: string, proposal: Proposal, aspectRatio: string, language: string, hasRef: bool)
    requires "reader_mindset" !in proposal.fields
    ensures RenderGeneration(ds, proposal, aspectRatio, language, hasRef)
         == RenderGeneration(ds, Proposal(proposal.fields["reader_mindset" := JStr("")], proposal.blocks), aspectRatio, language, hasRef)
  {
    var q := Proposal(proposal.fields["reader_mindset" := JStr("")], proposal.blocks);
    forall f | f != "reader_mindset" ensures Get(q.fields, f) == Get(proposal.fields, f) { }
    assert GenerationParams(q, "", language) == GenerationParams(proposal, "", language);
    var b := BuildBlocksText(proposal.blocks);
    if b.Some? {
      assert GenerationParams(q, b.value, language) == GenerationParams(proposal, b.value, language);
    }
  }
}
