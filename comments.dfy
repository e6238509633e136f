/**
 * The comment texts the plugin writes: the javadoc of a model class and of
 * its fields, and the footer appended to every mapping document.
 */
module Comments {
  import opened Wrappers
  import opened Strings
  import opened Dom

  /** Java's string conversion of a boolean. */
  function BoolText(b: bool): (r: string)
    ensures ParseBoolean(r) <==> b
  {
    if b then "true" else "false"
  }

  /** A javadoc block: opened by "/**", closed by " */", every line between starting with " *". */
  predicate JavaDocBlock(lines: seq<string>)
  {
    |lines| >= 2 && lines[0] == "/**" && lines[|lines| - 1] == " */" &&
    forall i :: 0 < i < |lines| - 1 ==> StartsWith(lines[i], " *")
  }

  /** A line of the block body: " *" followed by `text`. */
  function Line(text: string): string
  {
    " *" + text
  }

  lemma StarLine(text: string)
    ensures StartsWith(Line(text), " *")
  {
    assert Line(text)[..2] == " *";
  }

  /**
   * The javadoc of a model class: the table's qualified name and the
   * generation date (passed in; the source formats the current day as
   * yyyy-MM-dd).
   */
  function ClassHeader(table: string, date: string): (r: seq<string>)
    ensures JavaDocBlock(r) && |r| == 4
    ensures r[1] == Line(" Table: " + table)
    ensures r[2] == Line(" Created by Mybatis Generator @Author Largo @Date on " + date)
  {
    StarLine(" Table: " + table);
    StarLine(" Created by Mybatis Generator @Author Largo @Date on " + date);
    ["/**", Line(" Table: " + table), Line(" Created by Mybatis Generator @Author Largo @Date on " + date), " */"]
  }

  /** The remark lines of a field's javadoc: the remark and an empty line, when the remark is used. */
  function RemarkLines(remarks: Option<string>): seq<string>
  {
    if HasRemark(remarks) then [Line(" " + remarks.value), Line("")] else []
  }

  /** The table, column and nullability lines that close every field javadoc. */
  function ColumnLines(table: string, column: Column): seq<string>
  {
    [Line(" Table:     " + table), Line(" Column:    " + column.actualName),
     Line(" Nullable:  " + BoolText(column.nullable)), " */"]
  }

  /**
   * The javadoc of a field: seven lines when the column's remark is longer
   * than one character, five otherwise. The remark comes first, then the
   * table, the column's actual name and its nullability, in that order.
   */
  function FieldDoc(table: string, column: Column): (r: seq<string>)
    ensures JavaDocBlock(r)
    ensures |r| == if HasRemark(column.remarks) then 7 else 5
    ensures HasRemark(column.remarks) ==> r[1] == Line(" " + column.remarks.value) && r[2] == Line("")
    ensures r[|r| - 4] == Line(" Table:     " + table)
    ensures r[|r| - 3] == Line(" Column:    " + column.actualName)
    ensures r[|r| - 2] == Line(" Nullable:  " + BoolText(column.nullable))
  {
    StarLine(" Table:     " + table);
    StarLine(" Column:    " + column.actualName);
    StarLine(" Nullable:  " + BoolText(column.nullable));
    if HasRemark(column.remarks) then
      StarLine(" " + column.remarks.value);
      StarLine("");
      ["/**"] + RemarkLines(column.remarks) + ColumnLines(table, column)
    else
      ["/**"] + ColumnLines(table, column)
  }

  /** The field javadoc holds the remark exactly when the remark is longer than one character. */
  lemma {:induction false} FieldDocMentionsRemark(table: string, column: Column, remark: string)
    requires column.remarks == Some(remark)
    ensures Line(" " + remark) in FieldDoc(table, column) <==> |remark| > 1
  {
    var r := FieldDoc(table, column);
    if |remark| > 1 {
      assert r[1] == Line(" " + remark);
    } else {
      var l := Line(" " + remark);
      assert |l| == 3 + |remark| && l[0] == ' ' && l[2] == ' ';
      assert r == ["/**"] + ColumnLines(table, column);
      assert "/**"[0] == '/' && " */"[2] == '/';
      assert |r[1]| >= 13 && |r[2]| >= 13 && |r[3]| >= 13;
      assert forall i :: 0 <= i < |r| ==> r[i] != l;
    }
  }

  /** The opening line of the banner appended to a mapping document, around the generation time. */
  function Banner(timestamp: string): (r: string)
    ensures StartsWith(r, "<!-- ") && |r| == 45 + |timestamp| + 11
    ensures r[45..45 + |timestamp|] == timestamp
  {
    var open, title, close := "<!-- ", "### 以上代码由MBG + CommentPlugin自动生成, 生成时间: ", " ### -->\n\n\n";
    assert open + title + timestamp + close == open + (title + timestamp + close);
    assert |open + title| == 45;
    open + title + timestamp + close
  }

  /**
   * The four text nodes appended to a mapping document: a blank line, the
   * banner, the placeholder comment for hand-written statements, a blank
   * line.
   */
  function Footer(timestamp: string): (r: seq<Node>)
    ensures |r| == 4 && forall n :: n in r ==> n.Text?
    ensures r[0] == r[3] == Text("")
    ensures r[1] == Text(Banner(timestamp)) && r[2] == Text("<!-- Your codes goes here!!! -->")
  {
    [Text(""), Text(Banner(timestamp)), Text("<!-- Your codes goes here!!! -->"), Text("")]
  }
}
