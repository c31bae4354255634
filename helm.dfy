/**
 * Reading image references and CPE names out of a Helm chart's
 * annotations: one record per line, colon-separated fields, the first field
 * naming the kind of record (pkg/helm/helm.go).
 */
module Helm {
  import opened Options
  import opened GoStrings

  const ImagesKey := "bigbang.dev/images"
  const CpeKey := "bigbang.dev/cpe"

  /** The part of a loaded chart the tool reads: its metadata. */
  datatype Chart = Chart(name: string, version: string, annotations: map<string, string>)

  /** A Go map lookup: a missing annotation reads as "". */
  function Annotation(annotations: map<string, string>, key: string): string {
    if key in annotations then annotations[key] else ""
  }

  /**
   * The record a line of the CPE annotation holds, if any: lines of at
   * least three fields whose first field mentions "cpe", minus that field.
   */
  function CpeOfLine(line: string): (record: Option<string>)
    ensures record.Some? ==> Split(line, ':')[0] + ":" + record.value == line
  {
    var parts := Split(line, ':');
    if |parts| < 3 then None
    else if Contains(parts[0], "cpe") then
      JoinSplit(line, ':');
      JoinFirst(parts, ':');
      Some(Join(parts[1..], ':'))
    else None
  }

  /**
   * The record a line of the image annotation holds, if any: lines of at
   * least three fields whose first field mentions "image" give the second
   * field, trimmed of spaces, and the third; further fields are dropped.
   */
  function ImageOfLine(line: string): (record: Option<string>)
    ensures record.Some? ==> |Split(line, ':')| >= 3
    ensures record.Some? ==> Split(record.value, ':') == [Trim(Split(line, ':')[1], ' '), Split(line, ':')[2]]
  {
    var parts := Split(line, ':');
    if |parts| < 3 then None
    else if Contains(parts[0], "image") then
      var name := Trim(parts[1], ' ');
      ImageRecordFields(line, parts, name);
      Some(name + ":" + parts[2])
    else None
  }

  /** The trimmed second field and the third, joined by a colon, split back into those two. */
  lemma ImageRecordFields(line: string, parts: seq<string>, name: string)
    requires parts == Split(line, ':') && |parts| >= 3 && name == Trim(parts[1], ' ')
    ensures Split(name + ":" + parts[2], ':') == [name, parts[2]]
  {
    SplitFieldsHaveNoSeparator(line, ':');
    var i, j := TrimIsMiddle(parts[1], ' ');
    assert ':' !in name by {
      forall k | 0 <= k < |name| ensures name[k] != ':' {
        assert name[k] == parts[1][i + k];
      }
    }
    SplitJoin([name, parts[2]], ':');
    assert Join([name, parts[2]], ':') == name + ":" + parts[2];
  }

  /** The records of `lines` in line order, skipping lines that hold none. */
  function Collect(lines: seq<string>, parse: string -> Option<string>): seq<string> {
    if lines == [] then []
    else
      var before := Collect(lines[..|lines| - 1], parse);
      match parse(lines[|lines| - 1])
      case None => before
      case Some(r) => before + [r]
  }

  /** The CPE names a chart's annotation lists. */
  function ChartCpes(chart: Chart): seq<string> {
    Collect(Lines(Annotation(chart.annotations, CpeKey)), CpeOfLine)
  }

  /** The image references a chart's annotation lists. */
  function ChartImages(chart: Chart): seq<string> {
    Collect(Lines(Annotation(chart.annotations, ImagesKey)), ImageOfLine)
  }

  /** The CPE names listed in a chart's annotations (`CPEs`). */
  method CPEs(chart: Chart) returns (cpes: seq<string>)
    ensures cpes == ChartCpes(chart)
    ensures CpeKey !in chart.annotations ==> cpes == []
  {
    var lines := Lines(Annotation(chart.annotations, CpeKey));
    cpes := [];
    var i := 0;
    while i < |lines|
      invariant 0 <= i <= |lines|
      invariant cpes == Collect(lines[..i], CpeOfLine)
    {
      assert lines[..i + 1][..i] == lines[..i];
      var parts := Split(lines[i], ':');
      i := i + 1;
      if |parts| < 3 {
        continue;
      }
      if Contains(parts[0], "cpe") {
        assert CpeOfLine(lines[i - 1]) == Some(Join(parts[1..], ':'));
        cpes := cpes + [Join(parts[1..], ':')];
      }
    }
    assert lines[..i] == lines;
  }

  /** The image references listed in a chart's annotations (`Images`). */
  method Images(chart: Chart) returns (images: seq<string>)
    ensures images == ChartImages(chart)
    ensures ImagesKey !in chart.annotations ==> images == []
  {
    var lines := Lines(Annotation(chart.annotations, ImagesKey));
    images := [];
    var i := 0;
    while i < |lines|
      invariant 0 <= i <= |lines|
      invariant images == Collect(lines[..i], ImageOfLine)
    {
      assert lines[..i + 1][..i] == lines[..i];
      var parts := Split(lines[i], ':');
      i := i + 1;
      if |parts| < 3 {
        continue;
      }
      if Contains(parts[0], "image") {
        images := images + [Trim(parts[1], ' ') + ":" + parts[2]];
      }
    }
    assert lines[..i] == lines;
  }

  /**
   * A CPE line is kept exactly when it has three or more fields and the
   * first mentions "cpe"; what is kept is everything after the first colon,
   * field for field, so the marker field, a colon and the record give the
   * line back.
   */
  lemma CpeOfLineSpec(line: string)
    ensures var parts := Split(line, ':');
      && (CpeOfLine(line).Some? <==> |parts| >= 3 && Contains(parts[0], "cpe"))
      && (CpeOfLine(line).Some? ==>
            && parts[0] + ":" + CpeOfLine(line).value == line
            && Split(CpeOfLine(line).value, ':') == parts[1..])
  {
    var parts := Split(line, ':');
    if CpeOfLine(line).Some? {
      SplitFieldsHaveNoSeparator(line, ':');
      SplitJoin(parts[1..], ':');
    }
  }

  /**
   * An image line is kept exactly when it has three or more fields and the
   * first mentions "image"; what is kept has exactly two fields, the
   * trimmed second field and the third, whatever followed them.
   */
  lemma ImageOfLineSpec(line: string)
    ensures var parts := Split(line, ':');
      && (ImageOfLine(line).Some? <==> |parts| >= 3 && Contains(parts[0], "image"))
      && (ImageOfLine(line).Some? ==>
            Split(ImageOfLine(line).value, ':') == [Trim(parts[1], ' '), parts[2]])
  {
  }

  /**
   * A line `marker:rest` whose marker mentions "cpe" and whose rest has
   * another colon gives back `rest`.
   */
  lemma CpeLine(marker: string, rest: string)
    requires ':' !in marker && ':' in rest
    requires HasPrefix(marker, "cpe")
    ensures CpeOfLine(marker + ":" + rest) == Some(rest)
  {
    CountMember(rest, ':');
    JoinSplit(rest, ':');
    SplitAtFirstSeparator(marker, ':', rest);
    var parts := Split(marker + [':'] + rest, ':');
    assert parts[1..] == Split(rest, ':');
  }

  /**
   * The example record of a CPE annotation, "cpe:2.3:a:vendor:product:1.0".
   * The line's pieces are parameters fixed by the precondition: a whole
   * string literal would have the verifier unfold `Split` over every
   * character, so the proof goes through the general `CpeLine` instead.
   */
  lemma CpeLineExample(marker: string, rest: string)
    requires marker == "cpe" && rest == "2.3:a:vendor:product:1.0"
    ensures CpeOfLine(marker + ":" + rest) == Some("2.3:a:vendor:product:1.0")
  {
    assert HasPrefix(marker, "cpe") && rest[3] == ':';
    CpeLine(marker, rest);
  }

  /**
   * The example record of an image annotation, "image: nginx:1.21": the
   * space after the first colon is trimmed. As in `CpeLineExample`, the
   * pieces of the line are parameters fixed by the precondition.
   */
  lemma ImageLineExample(marker: string, name: string, tag: string)
    requires marker == "image" && name == " nginx" && tag == "1.21"
    ensures ImageOfLine(marker + ":" + name + ":" + tag) == Some("nginx:1.21")
  {
    assert HasPrefix(marker, "image") && name[1..] == "nginx";
    ImageLine(marker, name, tag, "nginx");
    SplitWithoutSeparator(tag, ':');
    assert "nginx" + ":" + tag == "nginx:1.21";
  }

  /**
   * A registry port takes the place of the tag, and the tag is lost:
   * "image: registry.local:5000/nginx:1.21" gives "registry.local:5000/nginx".
   * The pieces of the line are parameters fixed by the precondition.
   */
  lemma ImageLineWithRegistryPort(marker: string, host: string, path: string, tag: string)
    requires marker == "image" && host == " registry.local" && path == "5000/nginx" && tag == "1.21"
    ensures ImageOfLine(marker + ":" + host + ":" + path + ":" + tag) == Some("registry.local:5000/nginx")
  {
    assert HasPrefix(marker, "image") && host[1..] == "registry.local";
    ImageLine(marker, host, path + ":" + tag, "registry.local");
    SplitAtFirstSeparator(path, ':', tag);
    assert marker + ":" + host + ":" + path + ":" + tag == marker + ":" + host + ":" + (path + ":" + tag);
    assert "registry.local" + ":" + path == "registry.local:5000/nginx";
  }

  /** The image record of a line `marker:name:tail` whose name trims to `trimmed`. */
  lemma ImageLine(marker: string, name: string, tail: string, trimmed: string)
    requires ':' !in marker && ':' !in name
    requires HasPrefix(marker, "image")
    requires |name| >= 1 && name[0] == ' ' && name[1..] == trimmed
    requires trimmed != [] && trimmed[0] != ' ' && trimmed[|trimmed| - 1] != ' '
    ensures ImageOfLine(marker + ":" + name + ":" + tail)
         == Some(trimmed + ":" + Split(tail, ':')[0])
  {
    SplitAtFirstSeparator(name, ':', tail);
    SplitAtFirstSeparator(marker, ':', name + ":" + tail);
    assert marker + ":" + name + ":" + tail == marker + [':'] + (name + [':'] + tail);
    assert TrimLeft(name, ' ') == TrimLeft(trimmed, ' ') == trimmed;
  }

  /** No more records than lines. */
  lemma {:induction false} CollectLength(lines: seq<string>, parse: string -> Option<string>)
    ensures |Collect(lines, parse)| <= |lines|
    decreases |lines|
  {
    if lines != [] {
      CollectLength(lines[..|lines| - 1], parse);
    }
  }

  /**
   * The records are those of the lines that hold one, in line order:
   * `idx` gives, strictly increasing, the line each record came from, and
   * every line that holds a record is among them.
   */
  lemma {:induction false} CollectInLineOrder(lines: seq<string>, parse: string -> Option<string>)
    returns (idx: seq<nat>)
    ensures var rs := Collect(lines, parse);
      && |idx| == |rs|
      && (forall k :: 0 <= k < |idx| ==> idx[k] < |lines| && parse(lines[idx[k]]) == Some(rs[k]))
      && (forall k, l :: 0 <= k < l < |idx| ==> idx[k] < idx[l])
      && (forall j :: 0 <= j < |lines| && parse(lines[j]).Some? ==> j in idx)
    decreases |lines|
  {
    if lines == [] {
      idx := [];
    } else {
      var n := |lines| - 1;
      var front := lines[..n];
      idx := CollectInLineOrder(front, parse);
      assert forall j :: 0 <= j < n ==> front[j] == lines[j];
      if parse(lines[n]).Some? {
        idx := idx + [n];
      }
    }
  }
}
