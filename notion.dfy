/**
 * The listing printed by the notes-service probe: one line per search
 * result, `[TYPE] title`, where the title comes from the first property
 * whose id is "title" for a page, from the top-level title list for a
 * database, and is "Untitled" otherwise.
 *
 * A result is modelled after the JSON it comes from: a missing list is an
 * empty one (the source reads it with a default of `[]`), and a missing
 * key that is compared or defaulted is `None`.
 */
module Notion {
  import opened Wrappers

  /** A rich-text element; only its `plain_text` is read. */
  datatype RichText = RichText(plainText: Option<string>)

  /** A page property: its `id` and its `title` list. */
  datatype Property = Property(id: Option<string>, title: seq<RichText>)

  /** One search result: its `object` type (`kind`), its properties in key order, and its `title` list. */
  datatype SearchResult = SearchResult(kind: string, properties: seq<(string, Property)>, title: seq<RichText>)

  const Untitled: string := "Untitled"
  const NoPagesWarning: string :=
    "\n\U{26A0}\U{FE0F}  No pages found! (You need to 'Add Connection' > 'Ece' in Notion pages)"

  predicate IsTitleProperty(p: Property)
  {
    p.id == Some("title")
  }

  /** The position of the first property whose id is "title", if any. */
  function FirstTitleIndex(props: seq<(string, Property)>): (r: Option<nat>)
    ensures r.None? <==> forall k :: 0 <= k < |props| ==> !IsTitleProperty(props[k].1)
    ensures r.Some? ==>
      && r.value < |props| && IsTitleProperty(props[r.value].1)
      && forall k :: 0 <= k < r.value ==> !IsTitleProperty(props[k].1)
  {
    if props == [] then None
    else if IsTitleProperty(props[0].1) then Some(0)
    else
      match FirstTitleIndex(props[1..])
      case None => None
      case Some(k) => Some(k + 1)
  }

  /** `p` is a title property whose title list begins with the text `t`. */
  predicate HasTitleText(p: Property, t: string)
  {
    IsTitleProperty(p) && p.title != [] && p.title[0].plainText == Some(t)
  }

  /** The title text of a title list: `plain_text` of its first element. */
  function TitleText(list: seq<RichText>): (r: string)
    ensures r == Untitled || (list != [] && list[0].plainText == Some(r))
  {
    if list == [] then Untitled else list[0].plainText.GetOr(Untitled)
  }

  /** The title the probe prints for one result. */
  function Title(item: SearchResult): (r: string)
    ensures item.kind != "page" && item.kind != "database" ==> r == Untitled
    ensures || r == Untitled
            || (item.kind == "database" && item.title != [] && item.title[0].plainText == Some(r))
            || (item.kind == "page" && exists k :: 0 <= k < |item.properties| && HasTitleText(item.properties[k].1, r))
  {
    if item.kind == "page" then
      match FirstTitleIndex(item.properties)
      case None => Untitled
      case Some(k) => TitleText(item.properties[k].1.title)
    else if item.kind == "database" then
      TitleText(item.title)
    else
      Untitled
  }

  /** `c.upper()` on ASCII letters; every other character is left as it is. */
  function UpperChar(c: char): (u: char)
  {
    if 'a' <= c <= 'z' then (c as int - 32) as char else c
  }

  /** `s.upper()` for ASCII text, character by character. */
  function AsciiUpper(s: string): (r: string)
    ensures |r| == |s|
    ensures forall k :: 0 <= k < |s| ==> r[k] == UpperChar(s[k])
  {
    seq(|s|, k requires 0 <= k < |s| => UpperChar(s[k]))
  }

  /** The line format: the type in capitals between brackets, then the title. */
  function LineText(kind: string, title: string): (r: string)
    ensures |r| == 8 + |kind| + |title|
    ensures r[..6] == "   - [" && r[6..6 + |kind|] == AsciiUpper(kind)
    ensures r[6 + |kind|..8 + |kind|] == "] " && r[8 + |kind|..] == title
  {
    "   - [" + AsciiUpper(kind) + "] " + title
  }

  /** The printed line for one result. */
  function Line(item: SearchResult): (r: string)
    ensures |r| == 8 + |item.kind| + |Title(item)|
    ensures r[..6] == "   - [" && r[6..6 + |item.kind|] == AsciiUpper(item.kind)
    ensures r[6 + |item.kind|..8 + |item.kind|] == "] " && r[8 + |item.kind|..] == Title(item)
  {
    LineText(item.kind, Title(item))
  }

  /**
   * Lines 40-54: the title is found by walking the page's properties in
   * order and stopping at the first whose id is "title"; its title list,
   * when non-empty, gives the title. A database reads its own title list.
   */
  method DeriveTitle(item: SearchResult) returns (title: string)
    ensures title == Title(item)
  {
    var objType := item.kind;
    title := Untitled;
    if objType == "page" {
      var props := item.properties;
      var i := 0;
      while i < |props|
        invariant 0 <= i <= |props|
        invariant forall k :: 0 <= k < i ==> !IsTitleProperty(props[k].1)
        invariant title == Untitled
      {
        var val := props[i].1;
        if val.id == Some("title") {
          var titleList := val.title;
          if titleList != [] {
            title := titleList[0].plainText.GetOr(Untitled);
          }
          break;
        }
        i := i + 1;
      }
    } else if objType == "database" {
      var titleList := item.title;
      if titleList != [] {
        title := titleList[0].plainText.GetOr(Untitled);
      }
    }
  }

  /**
   * Lines 36-56: the warning alone when there are no results, otherwise
   * one line per result, in result order.
   */
  method RenderResults(results: seq<SearchResult>) returns (lines: seq<string>)
    ensures results == [] ==> lines == [NoPagesWarning]
    ensures results != [] ==> |lines| == |results|
    ensures forall k :: 0 <= k < |results| ==> k < |lines| && lines[k] == Line(results[k])
  {
    if results == [] {
      return [NoPagesWarning];
    }
    lines := [];
    for i := 0 to |results|
      invariant |lines| == i
      invariant forall k :: 0 <= k < i ==> lines[k] == Line(results[k])
    {
      var item := results[i];
      var title := DeriveTitle(item);
      lines := lines + [LineText(item.kind, title)];
    }
  }

  /** Any object type other than "page" or "database" is shown as untitled. */
  lemma OtherTypesUntitled(item: SearchResult)
    requires item.kind != "page" && item.kind != "database"
    ensures Title(item) == Untitled
  {
  }

  /**
   * Only the first title property of a page counts: whatever follows it,
   * including other properties with id "title", is never read.
   */
  lemma FirstTitlePropertyDecides(before: seq<(string, Property)>, key: string, p: Property,
                                  after: seq<(string, Property)>, title: seq<RichText>)
    requires forall k :: 0 <= k < |before| ==> !IsTitleProperty(before[k].1)
    requires IsTitleProperty(p)
    ensures Title(SearchResult("page", before + [(key, p)] + after, title)) == TitleText(p.title)
  {
    var props := before + [(key, p)] + after;
    assert props[|before|] == (key, p);
    assert forall k :: 0 <= k < |before| ==> props[k] == before[k];
    assert FirstTitleIndex(props) == Some(|before|);
  }

  /**
   * A page whose first title property has an empty title list stays
   * untitled, even when a later property with id "title" has a title.
   */
  lemma EmptyFirstTitleStaysUntitled(before: seq<(string, Property)>, key: string, id: Option<string>,
                                     after: seq<(string, Property)>, title: seq<RichText>)
    requires forall k :: 0 <= k < |before| ==> !IsTitleProperty(before[k].1)
    requires id == Some("title")
    ensures Title(SearchResult("page", before + [(key, Property(id, []))] + after, title)) == Untitled
  {
    FirstTitlePropertyDecides(before, key, Property(id, []), after, title);
  }

  /**
   * A non-empty title list gives the first element's `plain_text`, or
   * "Untitled" when that key is missing; pages and databases alike.
   */
  lemma NonEmptyTitleList(list: seq<RichText>)
    requires list != []
    ensures list[0].plainText.Some? ==> TitleText(list) == list[0].plainText.value
    ensures list[0].plainText.None? ==> TitleText(list) == Untitled
  {
  }

  /** The two known types are printed in capitals. */
  lemma KnownTypesUpperCased()
    ensures AsciiUpper("page") == "PAGE"
    ensures AsciiUpper("database") == "DATABASE"
  {
  }
}
