/**
 * Parsing of one Unity test-result line,
 * `path/to/file.c:line:test_name:STATUS[:message]`.
 */
module UnityLine {
  import opened Common
  import opened PyStr

  /** The dict built for one parsed result line; every field is text. */
  datatype Record = Record(testName: string, file: string, line: string, status: string, message: string)

  /** `path.split('/')[-1] if '/' in path else path` */
  function BaseName(path: string): string
  {
    if '/' in path then Last(Split(path, '/')) else path
  }

  /** The base name is the text after the last `/` of the path. */
  lemma BaseNameIsLastSegment(path: string)
    ensures '/' !in BaseName(path)
    ensures exists dir: string :: path == dir + BaseName(path)
    ensures '/' in path ==> exists dir: string :: path == dir + "/" + BaseName(path)
  {
    if '/' in path {
      var parts := Split(path, '/');
      JoinSplit(path, '/');
      JoinLastPiece(parts, '/');
    } else {
      assert path == [] + path;
    }
  }

  /** A join of two or more pieces ends with a separator followed by the last piece. */
  lemma {:induction false} JoinLastPiece(parts: seq<string>, c: char)
    requires |parts| >= 2
    ensures exists pre: string :: Join(parts, c) == pre + [c] + Last(parts)
  {
    if |parts| == 2 {
      assert Join(parts, c) == parts[0] + [c] + Join(parts[1..], c);
    } else {
      JoinLastPiece(parts[1..], c);
      var pre: string :| Join(parts[1..], c) == pre + [c] + Last(parts[1..]);
      assert Join(parts, c) == (parts[0] + [c] + pre) + [c] + Last(parts);
    }
  }

  /**
   * `_parse_unity_test_line`: split on `:`; with at least four fields the
   * record is built from them, otherwise there is no record.
   */
  function ParseUnityTestLine(line: string): Option<Record>
  {
    var parts := Split(line, ':');
    if |parts| >= 4 then
      var message := if |parts| > 4 then Join(parts[4..], ':') else "";
      Some(Record(testName := parts[2], file := BaseName(parts[0]), line := parts[1],
                  status := parts[3], message := Strip(message)))
    else
      None
  }

  /** A record is produced exactly when the line holds at least three colons. */
  lemma ParseSucceedsIff(line: string)
    ensures ParseUnityTestLine(line).Some? <==> Count(line, ':') >= 3
  {
    SplitLength(line, ':');
  }

  /**
   * What a parsed record holds: `file` is the base name of field 0, `line`,
   * `test_name` and `status` are fields 1 to 3, and `message` is fields 4
   * onward joined back with `:` and stripped (empty when there are none).
   */
  lemma ParseFields(line: string)
    requires ParseUnityTestLine(line).Some?
    ensures var parts := Split(line, ':');
      ParseUnityTestLine(line).value
      == Record(testName := parts[2], file := BaseName(parts[0]), line := parts[1],
                status := parts[3], message := Strip(Join(parts[4..], ':')))
  {
    var parts := Split(line, ':');
    MessageOfRest(parts);
  }

  /** The message text of `_parse_unity_test_line` is the join of the fields after the fourth. */
  lemma MessageOfRest(parts: seq<string>)
    requires |parts| >= 4
    ensures (if |parts| > 4 then Join(parts[4..], ':') else "") == Join(parts[4..], ':')
  {
    if |parts| == 4 {
      assert parts[4..] == [];
    }
  }

  /** The four fields and the message, joined back with `:`, are the line. */
  lemma FieldsRejoin(line: string)
    requires |Split(line, ':')| >= 4
    ensures var parts := Split(line, ':');
      line == Join(parts[..4], ':') + (if |parts| > 4 then ":" + Join(parts[4..], ':') else "")
  {
    var parts := Split(line, ':');
    JoinSplit(line, ':');
    JoinAppend(parts[..4], parts[4..], ':');
    assert parts[..4] + parts[4..] == parts;
  }

  /** Joining two non-empty lists of pieces puts one separator between them. */
  lemma {:induction false} JoinAppend(a: seq<string>, b: seq<string>, c: char)
    requires |a| >= 1
    ensures Join(a + b, c) == Join(a, c) + (if |b| > 0 then [c] + Join(b, c) else "")
  {
    if |a| == 1 {
      if |b| > 0 {
        assert (a + b)[1..] == b;
      } else {
        assert a + b == a;
      }
    } else {
      assert (a + b)[1..] == a[1..] + b;
      JoinAppend(a[1..], b, c);
    }
  }

  /** Parsing a line built by joining colon-free fields gives those fields back. */
  lemma ParseJoined(head: seq<string>, rest: seq<string>)
    requires |head| == 4
    requires forall k :: 0 <= k < |head| ==> ':' !in head[k]
    requires forall k :: 0 <= k < |rest| ==> ':' !in rest[k]
    ensures ParseUnityTestLine(Join(head + rest, ':'))
         == Some(Record(head[2], BaseName(head[0]), head[1], head[3], Strip(Join(rest, ':'))))
  {
    var parts := head + rest;
    SplitJoin(parts, ':');
    assert parts[4..] == rest;
    assert parts[..4] == head;
    if rest == [] {
      assert Join(rest, ':') == "";
    }
  }

  /**
   * A Unity result line whose four fields hold no colon parses back into
   * exactly those fields, with an empty message.
   */
  lemma ParseWellFormed(path: string, lineNo: string, name: string, status: string)
    requires ':' !in path && ':' !in lineNo && ':' !in name && ':' !in status
    ensures ParseUnityTestLine(path + ":" + lineNo + ":" + name + ":" + status)
         == Some(Record(name, BaseName(path), lineNo, status, ""))
  {
    var head := [path, lineNo, name, status];
    JoinFour(path, lineNo, name, status);
    ParseJoined(head, []);
    assert head + [] == head;
  }

  /**
   * A result line with a message after the fourth field: the message, which
   * may itself hold colons, is returned whole and stripped.
   */
  lemma ParseWellFormedWithMessage(path: string, lineNo: string, name: string, status: string, message: string)
    requires ':' !in path && ':' !in lineNo && ':' !in name && ':' !in status
    ensures ParseUnityTestLine(path + ":" + lineNo + ":" + name + ":" + status + ":" + message)
         == Some(Record(name, BaseName(path), lineNo, status, Strip(message)))
  {
    var head := [path, lineNo, name, status];
    var line := path + ":" + lineNo + ":" + name + ":" + status;
    JoinFour(path, lineNo, name, status);
    var msgParts := Split(message, ':');
    JoinSplit(message, ':');
    JoinAppend(head, msgParts, ':');
    assert Join(head + msgParts, ':') == line + ":" + message;
    ParseJoined(head, msgParts);
  }

  lemma JoinFour(a: string, b: string, c: string, d: string)
    ensures Join([a, b, c, d], ':') == a + ":" + b + ":" + c + ":" + d
  {
    var head := [a, b, c, d];
    assert head[1..] == [b, c, d];
    assert head[1..][1..] == [c, d];
    assert head[1..][1..][1..] == [d];
    assert Join([c, d], ':') == c + ":" + d;
    assert Join([b, c, d], ':') == b + ":" + (c + ":" + d);
    assert Join(head, ':') == a + ":" + (b + ":" + (c + ":" + d));
  }
}
