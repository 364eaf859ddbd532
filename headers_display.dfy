/**
 * The HeadersText property: the header list flattened into one display
 * string. Each header becomes an item, " name: value" when its name has
 * something other than white space and " value" otherwise, and the items
 * are joined with commas. White space and trimming follow .NET's
 * `Char.IsWhiteSpace` and `String.Trim`.
 */
module HeadersDisplay {
  import opened Primitives
  import opened IdxFormat

  /** The characters .NET counts as white space (Char.IsWhiteSpace): the Unicode White_Space property. */
  predicate IsWhiteSpace(c: char) {
    var n := c as int;
    (0x09 <= n <= 0x0D) || n == 0x20 || n == 0x85 || n == 0xA0 || n == 0x1680
    || (0x2000 <= n <= 0x200A) || n == 0x2028 || n == 0x2029 || n == 0x202F || n == 0x205F || n == 0x3000
  }

  /** Every character of `s` is white space (true of the empty string). */
  predicate Blank(s: Text) {
    forall i :: 0 <= i < |s| ==> IsWhiteSpace(s[i])
  }

  /** `s` without its leading white space. */
  function TrimStart(s: Text): Text {
    if s != [] && IsWhiteSpace(s[0]) then TrimStart(s[1..]) else s
  }

  /** `s` without its trailing white space. */
  function TrimEnd(s: Text): Text {
    if s != [] && IsWhiteSpace(s[|s| - 1]) then TrimEnd(s[..|s| - 1]) else s
  }

  /** TrimStart removes the longest all-white-space prefix: what is left is a suffix that starts with no white space. */
  lemma {:induction false} TrimStartRemovesBlankPrefix(s: Text)
    ensures |TrimStart(s)| <= |s| && TrimStart(s) == s[|s| - |TrimStart(s)|..]
    ensures TrimStart(s) == [] || !IsWhiteSpace(TrimStart(s)[0])
    ensures Blank(s[..|s| - |TrimStart(s)|])
  {
    if s != [] && IsWhiteSpace(s[0]) {
      TrimStartRemovesBlankPrefix(s[1..]);
      var k := |s| - |TrimStart(s)|;
      assert s[1..][k - 1..] == s[k..];
      forall i | 0 <= i < k
        ensures IsWhiteSpace(s[i])
      {
        if i > 0 {
          assert s[1..][..k - 1][i - 1] == s[i];
        }
      }
    }
  }

  /** TrimEnd removes the longest all-white-space suffix: what is left is a prefix that ends with no white space. */
  lemma {:induction false} TrimEndRemovesBlankSuffix(s: Text)
    ensures |TrimEnd(s)| <= |s| && TrimEnd(s) == s[..|TrimEnd(s)|]
    ensures TrimEnd(s) == [] || !IsWhiteSpace(TrimEnd(s)[|TrimEnd(s)| - 1])
    ensures Blank(s[|TrimEnd(s)|..])
  {
    if s != [] && IsWhiteSpace(s[|s| - 1]) {
      TrimEndRemovesBlankSuffix(s[..|s| - 1]);
      var r := TrimEnd(s);
      assert s[..|s| - 1][..|r|] == s[..|r|];
      forall i | |r| <= i < |s|
        ensures IsWhiteSpace(s[i])
      {
        if i < |s| - 1 {
          assert s[..|s| - 1][|r|..][i - |r|] == s[i];
        }
      }
    }
  }

  /** String.Trim: white space removed from both ends. */
  function Trim(s: Text): Text {
    TrimEnd(TrimStart(s))
  }

  /** `Trim()` leaves nothing exactly when the string is all white space. */
  lemma TrimEmptyIffBlank(s: Text)
    ensures |Trim(s)| == 0 <==> Blank(s)
  {
    TrimStartRemovesBlankPrefix(s);
    TrimEndRemovesBlankSuffix(TrimStart(s));
    var t := TrimStart(s);
    if t == [] {
      assert s[..|s|] == s;
    } else {
      assert !IsWhiteSpace(s[|s| - |t|]);
    }
  }

  /** One header as HeadersText shows it. */
  function Render(h: NameValue): (r: Text)
    ensures |r| > 0 && r[0] == ' '
  {
    if |Trim(h.name)| > 0 then " " + h.name + ": " + h.value else " " + h.value
  }

  /**
   * A header whose name is empty or all white space shows only its value;
   * any other header shows its name, a colon and its value.
   */
  lemma RenderForms(h: NameValue)
    ensures Blank(h.name) ==> Render(h) == " " + h.value
    ensures !Blank(h.name) ==> Render(h) == " " + h.name + ": " + h.value
  {
    TrimEmptyIffBlank(h.name);
  }

  /** A pair stored with the name `<null>` shows only its value once the standard decoder has read it. */
  lemma NullNamedShowsValue(value: Text)
    ensures Render(NullToEmpty(NameValue(NullName, value))) == " " + value
  {
    RenderForms(NullToEmpty(NameValue(NullName, value)));
  }

  /** The items HeadersText collects, one per header, in list order. */
  function Rendered(hs: seq<NameValue>): (items: seq<Text>)
    ensures |items| == |hs|
    ensures forall i :: 0 <= i < |hs| ==> items[i] == Render(hs[i])
  {
    if hs == [] then [] else Rendered(hs[..|hs| - 1]) + [Render(hs[|hs| - 1])]
  }

  /** String.Join: the items with `sep` between each two. */
  function Join(sep: Text, items: seq<Text>): Text {
    if items == [] then []
    else if |items| == 1 then items[0]
    else items[0] + sep + Join(sep, items[1..])
  }

  /** Joining one more item puts one separator before it. */
  lemma {:induction false} JoinAppend(sep: Text, items: seq<Text>, x: Text)
    ensures Join(sep, items + [x]) == if items == [] then x else Join(sep, items) + sep + x
    decreases |items|
  {
    if |items| > 1 {
      assert (items + [x])[1..] == items[1..] + [x];
      JoinAppend(sep, items[1..], x);
    } else if |items| == 1 {
      assert (items + [x])[1..] == [x];
    }
  }

  /** What HeadersText returns for a header list. */
  function HeadersText(hs: seq<NameValue>): Text {
    Join(",", Rendered(hs))
  }

  /** HeadersText is empty exactly when there are no headers: every item starts with a space. */
  lemma HeadersTextEmpty(hs: seq<NameValue>)
    ensures HeadersText(hs) == [] <==> hs == []
  {
    if hs != [] {
      var items := Rendered(hs);
      if |items| > 1 {
        assert (items[0] + "," + Join(",", items[1..]))[0] == items[0][0];
      }
    }
  }

  // ---------------------------------------------------------------------------
  // Splitting the text back into items

  /** The pieces of `s` between occurrences of `sep`. */
  function Split(s: Text, sep: char): (pieces: seq<Text>)
    ensures |pieces| > 0
  {
    if s == [] then [[]]
    else
      var rest := Split(s[1..], sep);
      if s[0] == sep then [[]] + rest else [[s[0]] + rest[0]] + rest[1..]
  }

  /** A string without the separator is one piece. */
  lemma {:induction false} SplitNone(s: Text, sep: char)
    requires sep !in s
    ensures Split(s, sep) == [s]
  {
    if s != [] {
      SplitNone(s[1..], sep);
      assert [s[0]] + s[1..] == s;
    }
  }

  /** A piece without the separator, then the separator, then the rest: the piece comes first. */
  lemma {:induction false} SplitAt(x: Text, sep: char, rest: Text)
    requires sep !in x
    ensures Split(x + [sep] + rest, sep) == [x] + Split(rest, sep)
    decreases |x|
  {
    var s := x + [sep] + rest;
    if x == [] {
      assert s == [sep] + rest && s[1..] == rest;
    } else {
      assert s[1..] == x[1..] + [sep] + rest;
      SplitAt(x[1..], sep, rest);
      assert [x[0]] + x[1..] == x;
    }
  }

  /** Joined items that hold no separator split back into the same items. */
  lemma {:induction false} SplitJoin(items: seq<Text>, sep: char)
    requires items != [] && forall i :: 0 <= i < |items| ==> sep !in items[i]
    ensures Split(Join([sep], items), sep) == items
    decreases |items|
  {
    if |items| == 1 {
      SplitNone(items[0], sep);
    } else {
      SplitJoin(items[1..], sep);
      SplitAt(items[0], sep, Join([sep], items[1..]));
      assert [items[0]] + items[1..] == items;
    }
  }

  /** An item holds a comma only when its header's name or value does. */
  lemma RenderNoComma(h: NameValue)
    requires ',' !in h.name && ',' !in h.value
    ensures ',' !in Render(h)
  {
    RenderForms(h);
    if Blank(h.name) {
      assert ',' !in " " + h.value;
    } else {
      assert ',' !in " " + h.name + ": " + h.value;
    }
  }

  /**
   * When no name and no value holds a comma, the items of HeadersText can be
   * recovered by splitting it at its commas: one item per header, in order.
   */
  lemma HeadersTextItems(hs: seq<NameValue>)
    requires hs != []
    requires forall i :: 0 <= i < |hs| ==> ',' !in hs[i].name && ',' !in hs[i].value
    ensures Split(HeadersText(hs), ',') == Rendered(hs)
  {
    var items := Rendered(hs);
    forall i | 0 <= i < |items|
      ensures ',' !in items[i]
    {
      RenderNoComma(hs[i]);
    }
    SplitJoin(items, ',');
  }

  /** One more header adds one more item, after a comma unless it is the first. */
  lemma HeadersTextAppend(hs: seq<NameValue>, h: NameValue)
    ensures HeadersText(hs + [h]) == if hs == [] then Render(h) else HeadersText(hs) + "," + Render(h)
  {
    assert (hs + [h])[..|hs|] == hs;
    assert Rendered(hs + [h]) == Rendered(hs) + [Render(h)];
    JoinAppend(",", Rendered(hs), Render(h));
  }
}
