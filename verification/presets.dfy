/** The pure parts of `PresetManager`: the layout-name table, image-key
    filtering, the category lists built from what storage lists under each
    prefix, upload keys, and how the model's answer picks a taste. Storage and
    the model are oracles passed in. */
module Presets {
  import opened Common

  /** A category with the images found under its prefix; `imageCount` is the
      separate `image_count` field the source fills in. */
  datatype Category = Category(id: string, name: string, description: string, imageCount: nat, imageKeys: seq<string>)

  /** A category as declared, before images are looked up. */
  datatype Declared = Declared(id: string, name: string, description: string)

  const DefaultTastes: seq<Declared> := [
    Declared("flat_minimal", "フラットミニマル", "シンプルな線画 + フラット塗り。清潔感のあるビジネス向け"),
    Declared("soft_illustration", "ソフトイラスト", "丸みのある柔らかいタッチ。親しみやすい印象"),
    Declared("corporate_clean", "コーポレートクリーン", "直線的でシャープなデザイン。信頼感を演出")
  ]

  const DefaultLayouts: seq<Declared> := [
    Declared("classification", "分類型", "横3/横4/2×2のグリッドで項目を整理"),
    Declared("comparison", "比較型", "左右2分割でA vs Bを対比"),
    Declared("flow", "フロー型", "横ステップで流れ・順番を表現"),
    Declared("pyramid", "ピラミッド型", "階層構造で優先度・重要度を表現"),
    Declared("icon_light", "アイコン軽量型", "アイコン＋最小テキストで5項目以上を網羅")
  ]

  const CustomTaste: Declared := Declared("custom", "カスタム", "ユーザーがアップロードしたスタイル")
  const CustomLayout: Declared := Declared("custom", "カスタム", "ユーザーがアップロードしたレイアウト")

  /** `LAYOUT_TYPE_MAP`. */
  const LayoutTypeMap: map<string, string> := map[
    "分類型" := "classification",
    "比較型" := "comparison",
    "フロー型" := "flow",
    "ピラミッド型" := "pyramid",
    "アイコン軽量型" := "icon_light"
  ]

  /** `get_layout_id_for_type`: the table's id, `classification` for any other name. */
  function LayoutIdForType(layoutType: string): (id: string)
    ensures layoutType !in LayoutTypeMap ==> id == "classification"
  {
    if layoutType in LayoutTypeMap then LayoutTypeMap[layoutType] else "classification"
  }

  /** The table agrees with the declared layout categories: each category's name
      maps to its own id, and every answer is the id of a declared layout. */
  lemma LayoutTableMatchesCategories(layoutType: string)
    ensures forall i | 0 <= i < |DefaultLayouts| :: LayoutIdForType(DefaultLayouts[i].name) == DefaultLayouts[i].id
    ensures exists i | 0 <= i < |DefaultLayouts| :: LayoutIdForType(layoutType) == DefaultLayouts[i].id
  {
    assert LayoutIdForType(layoutType) == DefaultLayouts[0].id || LayoutIdForType(layoutType) == DefaultLayouts[1].id
        || LayoutIdForType(layoutType) == DefaultLayouts[2].id || LayoutIdForType(layoutType) == DefaultLayouts[3].id
        || LayoutIdForType(layoutType) == DefaultLayouts[4].id;
  }

  // ---------------------------------------------------------------------------
  // Image keys

  const ImageExtensions: seq<string> := [".png", ".jpg", ".jpeg", ".webp"]

  /** `any(k.lower().endswith(ext) for ext in IMAGE_EXTENSIONS)`. */
  predicate IsImageKey(k: string) {
    exists i | 0 <= i < |ImageExtensions| :: EndsWith(Lower(k), ImageExtensions[i])
  }

  /** `_list_images`: the listed keys that name images, in listing order. */
  function ListImages(keys: seq<string>): (r: seq<string>)
    ensures |r| <= |keys|
    ensures forall k :: k in r <==> k in keys && IsImageKey(k)
  {
    if |keys| == 0 then []
    else (if IsImageKey(keys[0]) then [keys[0]] else []) + ListImages(keys[1..])
  }

  /** Filtering distributes over concatenation, so the kept keys keep their order. */
  lemma {:induction false} ListImagesAppend(a: seq<string>, b: seq<string>)
    ensures ListImages(a + b) == ListImages(a) + ListImages(b)
  {
    if |a| > 0 {
      assert (a + b)[1..] == a[1..] + b;
      ListImagesAppend(a[1..], b);
    } else {
      assert a + b == b;
    }
  }

  /** Upper-case extensions count: `PHOTO.JPG` is an image, `notes.txt` and
      `image.png.bak` are not. */
  lemma ImageKeyExamples()
    ensures IsImageKey("taste/custom/PHOTO.JPG")
    ensures !IsImageKey("notes.txt")
    ensures !IsImageKey("image.png.bak")
  {
    var u := Lower("taste/custom/PHOTO.JPG");
    assert u[|u| - 4..] == ".jpg";
    assert EndsWith(u, ImageExtensions[1]);
    var t := Lower("notes.txt");
    assert t[|t| - 1] == 't';
    forall i | 0 <= i < |ImageExtensions| ensures !EndsWith(t, ImageExtensions[i]) {
      assert ImageExtensions[i][|ImageExtensions[i]| - 1] != 't';
    }
    var b := Lower("image.png.bak");
    assert b[|b| - 1] == 'k';
    forall i | 0 <= i < |ImageExtensions| ensures !EndsWith(b, ImageExtensions[i]) {
      assert ImageExtensions[i][|ImageExtensions[i]| - 1] != 'k';
    }
  }

  // ---------------------------------------------------------------------------
  // Category lists

  /** A declared category with the images storage lists under `kind/id`. */
  function WithImages(kind: string, d: Declared, store: string -> seq<string>): (c: Category)
    ensures c.id == d.id && c.name == d.name && c.description == d.description
    ensures c.imageCount == |c.imageKeys| && c.imageKeys == ListImages(store(kind + "/" + d.id))
  {
    var images := ListImages(store(kind + "/" + d.id));
    Category(d.id, d.name, d.description, |images|, images)
  }

  function AllWithImages(kind: string, ds: seq<Declared>, store: string -> seq<string>): (cs: seq<Category>)
    ensures |cs| == |ds|
    ensures forall i | 0 <= i < |ds| :: cs[i] == WithImages(kind, ds[i], store)
  {
    seq(|ds|, i requires 0 <= i < |ds| => WithImages(kind, ds[i], store))
  }

  /** The defaults in order, then the custom category only when it has images. */
  function Categories(kind: string, defaults: seq<Declared>, custom: Declared, store: string -> seq<string>): (cs: seq<Category>)
    ensures |defaults| <= |cs| <= |defaults| + 1
    ensures forall i | 0 <= i < |defaults| :: cs[i] == WithImages(kind, defaults[i], store)
    ensures |cs| == |defaults| + 1 <==> |ListImages(store(kind + "/" + custom.id))| > 0
    ensures |cs| == |defaults| + 1 ==> cs[|defaults|] == WithImages(kind, custom, store)
    ensures forall i | 0 <= i < |cs| :: cs[i].imageCount == |cs[i].imageKeys|
  {
    var base := AllWithImages(kind, defaults, store);
    var extra := WithImages(kind, custom, store);
    if |extra.imageKeys| > 0 then base + [extra] else base
  }

  /** `list_taste_categories`. */
  function TasteCategories(store: string -> seq<string>): seq<Category> {
    Categories("taste", DefaultTastes, CustomTaste, store)
  }

  /** `list_layout_categories`. */
  function LayoutCategories(store: string -> seq<string>): seq<Category> {
    Categories("layout", DefaultLayouts, CustomLayout, store)
  }

  /** The taste list: the three defaults in declared order whatever storage holds,
      then `custom` exactly when `taste/custom` has an image. */
  lemma TasteCategoriesShape(store: string -> seq<string>)
    ensures var cs := TasteCategories(store);
      && 3 <= |cs| <= 4
      && cs[0].id == "flat_minimal" && cs[1].id == "soft_illustration" && cs[2].id == "corporate_clean"
      && (|cs| == 4 <==> |ListImages(store("taste/custom"))| > 0)
      && (|cs| == 4 ==> cs[3].id == "custom" && cs[3].imageKeys == ListImages(store("taste/custom")))
  {
    assert "taste" + "/" + CustomTaste.id == "taste/custom";
  }

  /** The layout list: the five defaults in order, then `custom` exactly when
      `layout/custom` has an image. */
  lemma LayoutCategoriesShape(store: string -> seq<string>)
    ensures var cs := LayoutCategories(store);
      && 5 <= |cs| <= 6
      && (forall i | 0 <= i < 5 :: cs[i].id == DefaultLayouts[i].id)
      && (|cs| == 6 <==> |ListImages(store("layout/custom"))| > 0)
      && (|cs| == 6 ==> cs[5].id == "custom")
  {
    assert "layout" + "/" + CustomLayout.id == "layout/custom";
  }

  // ---------------------------------------------------------------------------
  // Uploads

  /** `upload_image`'s key: `{type}/{id}/{filename}`. */
  function UploadKey(categoryType: string, categoryId: string, filename: string): string {
    categoryType + "/" + categoryId + "/" + filename
  }

  /** Splitting an upload key on `/` gives back the type, the id and the pieces of
      the file name; the key lies under the category's listing prefix. */
  lemma UploadKeyRoundTrip(categoryType: string, categoryId: string, filename: string)
    requires '/' !in categoryType && '/' !in categoryId
    ensures Split(UploadKey(categoryType, categoryId, filename), '/')
         == [categoryType, categoryId] + Split(filename, '/')
    ensures StartsWith(UploadKey(categoryType, categoryId, filename), categoryType + "/" + categoryId)
  {
    var parts := [categoryType, categoryId] + Split(filename, '/');
    var fp := Split(filename, '/');
    assert parts[2..] == fp;
    assert Join(parts, '/') == categoryType + "/" + Join(parts[1..], '/');
    assert parts[1..][1..] == fp;
    assert Join(parts[1..], '/') == categoryId + "/" + Join(fp, '/');
    assert UploadKey(categoryType, categoryId, filename) == Join(parts, '/');
    forall k | 0 <= k < |parts| ensures '/' !in parts[k] {
      if k >= 2 { assert parts[k] == fp[k - 2]; }
    }
    SplitJoin(parts, '/');
    var key := UploadKey(categoryType, categoryId, filename);
    assert key[..|categoryType + "/" + categoryId|] == categoryType + "/" + categoryId;
  }

  // ---------------------------------------------------------------------------
  // Choosing a taste

  /** `response.strip().lower().replace(" ", "_")`. */
  function NormalizeAnswer(response: string): (r: string)
    ensures ' ' !in r
  {
    ReplaceChar(Lower(Strip(response)), ' ', "_")
  }

  /** One `- id: name - description` line per category that has images. */
  function DescriptionLines(cs: seq<Category>): (lines: seq<string>)
    ensures |lines| == 0 <==> forall i | 0 <= i < |cs| :: cs[i].imageCount == 0
  {
    if |cs| == 0 then []
    else
      var rest := DescriptionLines(cs[1..]);
      if cs[0].imageCount > 0 then ["- " + cs[0].id + ": " + cs[0].name + " - " + cs[0].description] + rest
      else rest
  }

  /** The prompt sent to the model: the category lines and the first 500
      characters of the summary. */
  function TastePrompt(descriptions: string, summary: string): string {
    "以下のイラストスタイルカテゴリから、この記事に最適なものを1つ選んでください。\n\nカテゴリ:\n"
    + descriptions + "\n\n記事の概要:\n" + Prefix(summary, 500)
    + "\n\nカテゴリIDのみを返してください（例: flat_minimal）。他の文字は不要です。"
  }

  /** The chosen id, and the prompt sent to the model if one was. */
  datatype Selection = Selection(id: string, asked: Option<string>)

  function Ids(cs: seq<Category>): (ids: seq<string>)
    ensures |ids| == |cs| && forall i | 0 <= i < |cs| :: ids[i] == cs[i].id
  {
    seq(|cs|, i requires 0 <= i < |cs| => cs[i].id)
  }

  /** `auto_select_taste`: `ask` is the model, `None` when its call raises. */
  function AutoSelectTaste(store: string -> seq<string>, summary: string, ask: string -> Option<string>): Selection {
    Choose(TasteCategories(store), summary, ask)
  }

  /** The choice among listed categories: ask only when some category has images,
      and accept the normalized answer only when it is the id of a listed category
      (with or without images); anything else is `flat_minimal`. */
  function Choose(cs: seq<Category>, summary: string, ask: string -> Option<string>): Selection {
    var lines := DescriptionLines(cs);
    if |lines| == 0 then Selection("flat_minimal", None)
    else
      var prompt := TastePrompt(Join(lines, '\n'), summary);
      var answer := ask(prompt);
      if answer.Some? && NormalizeAnswer(answer.value) in Ids(cs) then Selection(NormalizeAnswer(answer.value), Some(prompt))
      else Selection("flat_minimal", Some(prompt))
  }

  /** The chosen taste is a listed category or `flat_minimal`. */
  lemma ChooseListed(cs: seq<Category>, summary: string, ask: string -> Option<string>)
    ensures var sel := Choose(cs, summary, ask);
      sel.id == "flat_minimal" || exists i | 0 <= i < |cs| :: sel.id == cs[i].id
  {
    var sel := Choose(cs, summary, ask);
    if sel.id != "flat_minimal" {
      assert sel.id in Ids(cs);
      var i :| 0 <= i < |cs| && Ids(cs)[i] == sel.id;
    }
  }

  /** With no image in any category the model is not asked and the answer is
      `flat_minimal`; otherwise it is asked exactly once with the prompt. */
  lemma ChooseAsks(cs: seq<Category>, summary: string, ask: string -> Option<string>)
    ensures (forall i | 0 <= i < |cs| :: cs[i].imageCount == 0) <==> Choose(cs, summary, ask).asked.None?
    ensures (forall i | 0 <= i < |cs| :: cs[i].imageCount == 0) ==> Choose(cs, summary, ask) == Selection("flat_minimal", None)
    ensures Choose(cs, summary, ask).asked.Some? ==>
      Choose(cs, summary, ask).asked.value == TastePrompt(Join(DescriptionLines(cs), '\n'), summary)
  {
    var lines := DescriptionLines(cs);
    if |lines| == 0 {
      assert Choose(cs, summary, ask) == Selection("flat_minimal", None);
    } else {
      var prompt := TastePrompt(Join(lines, '\n'), summary);
      assert Choose(cs, summary, ask).asked == Some(prompt);
    }
  }

  /** When the model was asked, its normalized answer is taken exactly when it
      names a listed category; a failed call or any other answer gives `flat_minimal`. */
  lemma ChooseAnswer(cs: seq<Category>, summary: string, ask: string -> Option<string>)
    ensures var sel := Choose(cs, summary, ask);
      sel.asked.Some? ==>
        var answer := ask(sel.asked.value);
        if answer.Some? && NormalizeAnswer(answer.value) in Ids(cs) then sel.id == NormalizeAnswer(answer.value)
        else sel.id == "flat_minimal"
  {
  }

  /** `auto_select_taste` over the storage's taste list: `flat_minimal` without a
      question when no taste has images, and always a listed taste or `flat_minimal`. */
  lemma AutoSelectTasteSpec(store: string -> seq<string>, summary: string, ask: string -> Option<string>)
    ensures var sel := AutoSelectTaste(store, summary, ask);
      sel.id == "flat_minimal" || exists i | 0 <= i < |TasteCategories(store)| :: sel.id == TasteCategories(store)[i].id
    ensures (forall i | 0 <= i < |TasteCategories(store)| :: TasteCategories(store)[i].imageCount == 0) ==>
      AutoSelectTaste(store, summary, ask) == Selection("flat_minimal", None)
  {
    ChooseListed(TasteCategories(store), summary, ask);
    ChooseAsks(TasteCategories(store), summary, ask);
  }

  /** An answer with no surrounding whitespace is normalized letter by letter:
      ASCII capitals lowered, spaces turned into underscores, nothing else touched;
      so `Flat Minimal` names `flat_minimal`. */
  lemma NormalizeAnswerLetters(s: string)
    requires |s| > 0 && !IsSpace(s[0]) && !IsSpace(s[|s| - 1])
    ensures |NormalizeAnswer(s)| == |s|
    ensures forall i | 0 <= i < |s| :: NormalizeAnswer(s)[i] == if s[i] == ' ' then '_' else LowerChar(s[i])
  {
    StripEnds(s);
  }
}
