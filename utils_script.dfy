/**
  Helpers of the server-rendered pages (LMS/static/js/utils.js): reading the
  CSRF token from the cookie string, and the body of a delete request.
 */
module UtilsScript {
  import opened Wrappers
  import opened Text

  const CsrfPrefix: string := "csrftoken="

  /** `rows.find(row => row.startsWith(prefix))`: the first row with the
      prefix. */
  function FindRow(rows: seq<string>, prefix: string): (r: Option<string>)
    ensures r.None? ==> forall k :: 0 <= k < |rows| ==> !StartsWith(rows[k], prefix)
    ensures r.Some? ==> exists k :: (0 <= k < |rows| && rows[k] == r.value &&
      StartsWith(rows[k], prefix) && forall j :: 0 <= j < k ==> !StartsWith(rows[j], prefix))
  {
    if rows == [] then None
    else if StartsWith(rows[0], prefix) then Some(rows[0])
    else
      var r := FindRow(rows[1..], prefix);
      assert forall k :: 1 <= k < |rows| ==> rows[k] == rows[1..][k - 1];
      if r.Some? then
        var k :| 0 <= k < |rows[1..]| && rows[1..][k] == r.value &&
          StartsWith(rows[1..][k], prefix) && forall j :: 0 <= j < k ==> !StartsWith(rows[1..][j], prefix);
        assert rows[k + 1] == r.value;
        r
      else r
  }

  /** `getCSRFToken`: the cookie string cut at "; ", the first entry starting
      with "csrftoken=", and in it the text between the first "=" and the
      next one; "" when there is no such entry. */
  function CsrfToken(cookie: string): (r: string)
    ensures FindRow(Split(cookie, "; "), CsrfPrefix).None? ==> r == ""
    ensures FindRow(Split(cookie, "; "), CsrfPrefix).Some? ==>
      var row := FindRow(Split(cookie, "; "), CsrfPrefix).value;
      StartsWith(row, CsrfPrefix + r) && (|row| == |CsrfPrefix + r| || row[|CsrfPrefix + r|] == '=')
    ensures '=' !in r
  {
    match FindRow(Split(cookie, "; "), CsrfPrefix)
    case None => ""
    case Some(row) =>
      RowValue(row);
      Split(row, "=")[1]
  }

  /** Split at "=", a row starting with "csrftoken=" has a second piece: the
      text after "csrftoken=" up to the next "=" or the end of the row. */
  lemma RowValue(row: string)
    requires StartsWith(row, CsrfPrefix)
    ensures |Split(row, "=")| >= 2
    ensures var value := Split(row, "=")[1];
      '=' !in value && StartsWith(row, CsrfPrefix + value) &&
      (|row| == |CsrfPrefix + value| || row[|CsrfPrefix + value|] == '=')
  {
    var tail := row[|CsrfPrefix|..];
    assert row == "csrftoken" + ['='] + tail;
    SplitAtFirstChar("csrftoken", '=', tail);
    SplitFirstPiece(tail, '=');
    var value := Split(row, "=")[1];
    assert value == Split(tail, "=")[0];
    assert row[..|CsrfPrefix + value|] == CsrfPrefix + value;
  }

  /** A cookie made of the token entry followed by other entries yields the
      token, whatever the other entries hold. */
  lemma {:induction false} CsrfTokenFirstEntry(token: string, rest: string)
    requires '=' !in token && ';' !in token
    ensures CsrfToken(CsrfPrefix + token + "; " + rest) == token
    ensures CsrfToken(CsrfPrefix + token) == token
  {
    var entry := CsrfPrefix + token;
    forall j | 0 <= j < |entry| ensures entry[j] != ';' {
      if j >= |CsrfPrefix| {
        assert entry[j] == token[j - |CsrfPrefix|];
      }
    }
    forall j | 0 <= j < |entry| ensures !OccursAt(entry + "; " + rest, "; ", j) {
      assert (entry + "; " + rest)[j] == entry[j];
    }
    SplitAtFirst(entry, "; ", rest);
    NoSemicolonNoSeparator(entry);
    SplitWithout(entry, "; ");
    assert StartsWith(entry, CsrfPrefix);
    ValueOfEntry(token);
  }

  /** The value read from the entry "csrftoken=<token>". */
  lemma ValueOfEntry(token: string)
    requires '=' !in token
    ensures |Split(CsrfPrefix + token, "=")| >= 2 && Split(CsrfPrefix + token, "=")[1] == token
  {
    var name := "csrftoken";
    assert CsrfPrefix + token == name + ['='] + token;
    SplitAtFirstChar(name, '=', token);
    forall j | 0 <= j < |token| ensures !OccursAt(token, "=", j) {
      assert token[j..j + 1] == [token[j]];
    }
    SplitWithout(token, "=");
  }

  /** The value is cut at the next "=": "csrftoken=<a>=<b>" yields <a>,
      whatever <b> holds. */
  lemma ValueCutAtNextEquals(a: string, b: string)
    requires '=' !in a
    ensures |Split(CsrfPrefix + a + "=" + b, "=")| >= 2 && Split(CsrfPrefix + a + "=" + b, "=")[1] == a
  {
    assert CsrfPrefix + a + "=" + b == "csrftoken" + ['='] + (a + ['='] + b);
    SplitAtFirstChar("csrftoken", '=', a + "=" + b);
    SplitAtFirstChar(a, '=', b);
  }

  /** A token entry whose value holds a further "=", standing after entries
      that are no token entries, yields the text up to that "=", whether or
      not more entries follow. */
  lemma CsrfTokenCutAtEquals(pre: seq<string>, a: string, b: string, rest: string)
    requires forall k :: 0 <= k < |pre| ==> OtherEntry(pre[k])
    requires '=' !in a && ';' !in a && ';' !in b
    ensures CsrfToken(Join(pre + [CsrfPrefix + a + "=" + b + "; " + rest], "; ")) == a
    ensures CsrfToken(Join(pre + [CsrfPrefix + a + "=" + b], "; ")) == a
  {
    var entry := CsrfPrefix + a + "=" + b;
    CutEntryShape(a, b);
    TokenEntryAfter(pre, entry, rest);
    ValueCutAtNextEquals(a, b);
  }

  /** "csrftoken=<a>=<b>" is a token entry, without ';' when neither part has one. */
  lemma CutEntryShape(a: string, b: string)
    requires ';' !in a && ';' !in b
    ensures StartsWith(CsrfPrefix + a + "=" + b, CsrfPrefix) && ';' !in CsrfPrefix + a + "=" + b
  {
    var entry := CsrfPrefix + a + "=" + b;
    forall j | 0 <= j < |entry| ensures entry[j] != ';' {
      if |CsrfPrefix| <= j < |CsrfPrefix| + |a| {
        assert entry[j] == a[j - |CsrfPrefix|];
      } else if j > |CsrfPrefix| + |a| {
        assert entry[j] == b[j - |CsrfPrefix| - |a| - 1];
      }
    }
    assert entry[..|CsrfPrefix|] == CsrfPrefix;
  }

  /** A token entry standing after entries that are no token entries is the
      row found, whether or not more entries follow. */
  lemma TokenEntryAfter(pre: seq<string>, entry: string, rest: string)
    requires forall k :: 0 <= k < |pre| ==> OtherEntry(pre[k])
    requires StartsWith(entry, CsrfPrefix) && ';' !in entry
    ensures FindRow(Split(Join(pre + [entry + "; " + rest], "; "), "; "), CsrfPrefix) == Some(entry)
    ensures FindRow(Split(Join(pre + [entry], "; "), "; "), CsrfPrefix) == Some(entry)
  {
    var x1 := entry + "; " + rest;
    SplitEntries(pre, x1);
    SplitEntries(pre, entry);
    FindRowSkips(pre, Split(x1, "; "), CsrfPrefix);
    FindRowSkips(pre, Split(entry, "; "), CsrfPrefix);
    TokenEntryLeads(entry, rest);
  }

  /** A token entry without ';' is the row found, whether it stands alone or
      other entries follow it. */
  lemma TokenEntryLeads(entry: string, rest: string)
    requires StartsWith(entry, CsrfPrefix) && ';' !in entry
    ensures FindRow(Split(entry + "; " + rest, "; "), CsrfPrefix) == Some(entry)
    ensures FindRow(Split(entry, "; "), CsrfPrefix) == Some(entry)
  {
    NoSemicolonNoSeparatorBefore(entry, rest);
    SplitAtFirst(entry, "; ", rest);
    assert forall j :: 0 <= j < |entry| ==> entry[j] != ';';
    NoSemicolonNoSeparator(entry);
    SplitWithout(entry, "; ");
  }

  /** Without a ';' the entry separator "; " occurs nowhere. */
  lemma NoSemicolonNoSeparator(s: string)
    requires forall j :: 0 <= j < |s| ==> s[j] != ';'
    ensures forall j :: 0 <= j < |s| ==> !OccursAt(s, "; ", j)
  {
    forall j | 0 <= j < |s| ensures !OccursAt(s, "; ", j) {
      if j + 2 <= |s| {
        assert s[j..j + 2][0] == s[j];
      }
    }
  }

  /** A string in which the separator never occurs splits into itself. */
  lemma SplitWithout(s: string, sep: string)
    requires |sep| > 0
    requires forall j :: 0 <= j < |s| ==> !OccursAt(s, sep, j)
    ensures Split(s, sep) == [s]
  {
    assert IndexOf(s, sep, 0).None?;
  }

  /** Splitting at the first occurrence of the separator peels off the head. */
  lemma SplitAtFirst(head: string, sep: string, rest: string)
    requires |sep| > 0
    requires forall j :: 0 <= j < |head| ==> !OccursAt(head + sep + rest, sep, j)
    ensures Split(head + sep + rest, sep) == [head] + Split(rest, sep)
  {
    var s := head + sep + rest;
    assert s[|head|..|head| + |sep|] == sep;
    assert OccursAt(s, sep, |head|);
    assert IndexOf(s, sep, 0) == Some(|head|);
    assert s[..|head|] == head;
    assert s[|head| + |sep|..] == rest;
  }

  /** A cookie entry other than the token's: no ';' in it, and not
      starting with "csrftoken=" (it may contain that text further on, as
      "xcsrftoken=abc" does). */
  predicate OtherEntry(entry: string) {
    ';' !in entry && !StartsWith(entry, CsrfPrefix)
  }

  /** Whatever entries come before it, the first "csrftoken=" entry is the
      one read, and whatever follows it is ignored, a second token entry
      included. */
  lemma CsrfTokenAnyEntry(pre: seq<string>, token: string, rest: string)
    requires forall k :: 0 <= k < |pre| ==> OtherEntry(pre[k])
    requires '=' !in token && ';' !in token
    ensures CsrfToken(Join(pre + [CsrfPrefix + token + "; " + rest], "; ")) == token
    ensures CsrfToken(Join(pre + [CsrfPrefix + token], "; ")) == token
  {
    var x1 := CsrfPrefix + token + "; " + rest;
    var x2 := CsrfPrefix + token;
    SplitEntries(pre, x1);
    SplitEntries(pre, x2);
    FindRowSkips(pre, Split(x1, "; "), CsrfPrefix);
    FindRowSkips(pre, Split(x2, "; "), CsrfPrefix);
    CsrfTokenFirstEntry(token, rest);
  }

  /** Of two token entries, the first one wins. */
  lemma CsrfTokenFirstWins(pre: seq<string>, token: string, other: string)
    requires forall k :: 0 <= k < |pre| ==> OtherEntry(pre[k])
    requires '=' !in token && ';' !in token
    ensures CsrfToken(Join(pre + [CsrfPrefix + token + "; " + CsrfPrefix + other], "; ")) == token
  {
    var rest := CsrfPrefix + other;
    assert CsrfPrefix + token + "; " + rest == CsrfPrefix + token + "; " + CsrfPrefix + other;
    CsrfTokenAnyEntry(pre, token, rest);
  }

  /** A cookie none of whose entries starts with "csrftoken=" yields "",
      even when an entry merely contains that text. */
  lemma CsrfTokenAbsent(entries: seq<string>)
    requires forall k :: 0 <= k < |entries| ==> OtherEntry(entries[k])
    ensures CsrfToken(Join(entries, "; ")) == ""
  {
    if entries == [] {
      EmptyCookieHasNoTokenRow();
    } else {
      NoTokenRow(entries);
    }
  }

  /** The empty cookie is the one row "", which is no token entry. */
  lemma EmptyCookieHasNoTokenRow()
    ensures FindRow(Split("", "; "), CsrfPrefix).None?
  {
    SplitWithout("", "; ");
    assert !StartsWith("", CsrfPrefix);
  }

  /** Entries that are all other entries hold no token row. */
  lemma NoTokenRow(entries: seq<string>)
    requires |entries| >= 1
    requires forall k :: 0 <= k < |entries| ==> OtherEntry(entries[k])
    ensures FindRow(Split(Join(entries, "; "), "; "), CsrfPrefix).None?
  {
    assert Split(Join(entries, "; "), "; ") == entries by {
      forall k | 0 <= k < |entries| ensures ';' !in entries[k] {
        assert OtherEntry(entries[k]);
      }
      SplitOfEntries(entries);
    }
    FindRowAbsent(entries, CsrfPrefix);
  }

  /** No row with the prefix, nothing found. */
  lemma FindRowAbsent(rows: seq<string>, prefix: string)
    requires forall k :: 0 <= k < |rows| ==> !StartsWith(rows[k], prefix)
    ensures FindRow(rows, prefix).None?
  {
  }

  /** Entries free of ';' joined with "; " are cut back into themselves. */
  lemma {:induction false} SplitOfEntries(entries: seq<string>)
    requires |entries| >= 1
    requires forall k :: 0 <= k < |entries| ==> ';' !in entries[k]
    ensures Split(Join(entries, "; "), "; ") == entries
    decreases |entries|
  {
    var head := entries[0];
    if |entries| == 1 {
      NoSemicolonNoSeparator(head);
      SplitWithout(head, "; ");
      ConsTail(entries);
    } else {
      var others := entries[1..];
      forall k | 0 <= k < |others| ensures ';' !in others[k] {
        assert others[k] == entries[k + 1];
      }
      SplitOfEntries(others);
      SplitAfterHead(head, Join(others, "; "));
      ConsTail(entries);
    }
  }

  /** Cutting at "; " recovers entries free of ';' that were joined with it. */
  lemma {:induction false} SplitEntries(pre: seq<string>, x: string)
    requires forall k :: 0 <= k < |pre| ==> ';' !in pre[k]
    ensures Split(Join(pre + [x], "; "), "; ") == pre + Split(x, "; ")
    decreases |pre|
  {
    if pre == [] {
      assert pre + [x] == [x];
    } else {
      var head, others := pre[0], pre[1..];
      var tail := Join(others + [x], "; ");
      assert Split(tail, "; ") == others + Split(x, "; ") by {
        forall k | 0 <= k < |others| ensures ';' !in others[k] {
          assert others[k] == pre[k + 1];
        }
        SplitEntries(others, x);
      }
      JoinSnocHead(pre, x, "; ");
      SplitAfterHead(head, tail);
      ConsAppend(pre, Split(x, "; "));
    }
  }

  /** A head free of ';' is cut off as the first piece. */
  lemma SplitAfterHead(head: string, tail: string)
    requires ';' !in head
    ensures Split(head + "; " + tail, "; ") == [head] + Split(tail, "; ")
  {
    NoSemicolonNoSeparatorBefore(head, tail);
    SplitAtFirst(head, "; ", tail);
  }

  /** A non-empty list is its head in front of its tail. */
  lemma ConsTail<T>(s: seq<T>)
    requires |s| >= 1
    ensures s == [s[0]] + s[1..]
  {
  }

  /** Appending to a non-empty list appends to its tail. */
  lemma ConsAppend<T>(s: seq<T>, t: seq<T>)
    requires |s| >= 1
    ensures s + t == [s[0]] + (s[1..] + t)
  {
    assert s == [s[0]] + s[1..];
  }

  /** Joining a non-empty list with one more entry puts its head first. */
  lemma JoinSnocHead(pre: seq<string>, x: string, sep: string)
    requires |pre| >= 1
    ensures Join(pre + [x], sep) == pre[0] + sep + Join(pre[1..] + [x], sep)
  {
    assert (pre + [x])[1..] == pre[1..] + [x];
  }

  /** "; " does not start inside a head free of ';'. */
  lemma NoSemicolonNoSeparatorBefore(head: string, rest: string)
    requires ';' !in head
    ensures forall j :: 0 <= j < |head| ==> !OccursAt(head + "; " + rest, "; ", j)
  {
    var s := head + "; " + rest;
    forall j | 0 <= j < |head| ensures !OccursAt(s, "; ", j) {
      assert s[j] == head[j];
      assert s[j..j + 2][0] == s[j];
    }
  }

  /** Rows without the prefix in front of a list do not change what is found. */
  lemma {:induction false} FindRowSkips(pre: seq<string>, rows: seq<string>, prefix: string)
    requires forall k :: 0 <= k < |pre| ==> !StartsWith(pre[k], prefix)
    ensures FindRow(pre + rows, prefix) == FindRow(rows, prefix)
    decreases |pre|
  {
    if pre == [] {
      assert pre + rows == rows;
    } else {
      assert (pre + rows)[0] == pre[0];
      assert (pre + rows)[1..] == pre[1..] + rows;
      FindRowSkips(pre[1..], rows, prefix);
    }
  }

  /** The body of `deleteItem`: one key, `<itemType>_id`, holding the id. */
  function DeletePayload(itemType: string, itemId: int): (body: map<string, int>)
    ensures |body| == 1 && body.Keys == {itemType + "_id"} && body[itemType + "_id"] == itemId
  {
    map[itemType + "_id" := itemId]
  }

  /** Different item types send different keys. */
  lemma DeletePayloadKeysDistinct(type1: string, type2: string, id1: int, id2: int)
    requires type1 != type2
    ensures DeletePayload(type1, id1).Keys != DeletePayload(type2, id2).Keys
  {
    var k1 := type1 + "_id";
    var k2 := type2 + "_id";
    assert k1 != k2 by {
      if |type1| == |type2| {
        assert k1[..|type1|] == type1;
        assert k2[..|type2|] == type2;
      }
    }
    assert k2 !in {k1};
  }
}
