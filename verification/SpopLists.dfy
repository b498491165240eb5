/** Comma-separated lists inside HELLO frames, and the string methods they rest on. */
module SpopLists {

  /** The characters `str.strip()` removes. */
  predicate IsSpace(c: char) {
    var n := c as int;
    || 0x09 <= n <= 0x0D || 0x1C <= n <= 0x20 || n == 0x85 || n == 0xA0 || n == 0x1680
    || 0x2000 <= n <= 0x200A || n == 0x2028 || n == 0x2029 || n == 0x202F || n == 0x205F || n == 0x3000
  }

  function StripLeft(s: string): string {
    if s != "" && IsSpace(s[0]) then StripLeft(s[1..]) else s
  }

  function StripRight(s: string): string {
    if s != "" && IsSpace(s[|s| - 1]) then StripRight(s[..|s| - 1]) else s
  }

  function Strip(s: string): string {
    StripRight(StripLeft(s))
  }

  /** `s.split(sep)`: never empty, one more piece than there are separators. */
  function Split(s: string, sep: char): (parts: seq<string>)
    ensures |parts| > 0
  {
    if s == "" then [""]
    else if s[0] == sep then [""] + Split(s[1..], sep)
    else
      var rest := Split(s[1..], sep);
      [[s[0]] + rest[0]] + rest[1..]
  }

  function Join(items: seq<string>): string {
    if items == [] then ""
    else if |items| == 1 then items[0]
    else items[0] + "," + Join(items[1..])
  }

  function Stripped(items: seq<string>): (r: seq<string>)
    ensures |r| == |items|
  {
    if items == [] then [] else [Strip(items[0])] + Stripped(items[1..])
  }

  function NonEmpty(items: seq<string>): seq<string> {
    if items == [] then []
    else if items[0] == "" then NonEmpty(items[1..])
    else [items[0]] + NonEmpty(items[1..])
  }

  /** `to_spop_list`. */
  function ToList(items: seq<string>): string {
    Join(Stripped(items))
  }

  /** `from_spop_list`. */
  function FromList(s: string): seq<string> {
    NonEmpty(Stripped(Split(s, ',')))
  }

  function FlattenLists(items: seq<string>): seq<string> {
    if items == [] then [] else FromList(items[0]) + FlattenLists(items[1..])
  }

  // ----- strip -----

  lemma {:induction false} StripLeftSuffix(s: string)
    ensures var t := StripLeft(s); |t| <= |s| && t == s[|s| - |t|..] && (t == "" || !IsSpace(t[0]))
    ensures forall k | 0 <= k < |s| - |StripLeft(s)| :: IsSpace(s[k])
  {
    if s != "" && IsSpace(s[0]) {
      StripLeftSuffix(s[1..]);
      assert forall k | 0 < k < |s| :: s[k] == s[1..][k - 1];
    }
  }

  lemma {:induction false} StripRightPrefix(s: string)
    ensures var t := StripRight(s); t <= s && (t == "" || !IsSpace(t[|t| - 1]))
    ensures forall k | |StripRight(s)| <= k < |s| :: IsSpace(s[k])
  {
    if s != "" && IsSpace(s[|s| - 1]) {
      StripRightPrefix(s[..|s| - 1]);
    }
  }

  /** No blank at either end. */
  predicate Trim(s: string) {
    s == "" || (!IsSpace(s[0]) && !IsSpace(s[|s| - 1]))
  }

  /** Only blanks are stripped, and all of them: this leaves one possible result. */
  lemma StripWindow(s: string) returns (i: nat, j: nat)
    ensures i <= j <= |s| && Strip(s) == s[i..j] && Trim(Strip(s))
    ensures forall k | 0 <= k < |s| && !(i <= k < j) :: IsSpace(s[k])
  {
    hide IsSpace;
    var left := StripLeft(s);
    StripLeftSuffix(s);
    StripRightPrefix(left);
    i := |s| - |left|;
    j := i + |Strip(s)|;
    assert forall k | 0 <= k < |left| :: left[k] == s[i + k];
    forall k | j <= k < |s|
      ensures IsSpace(s[k])
    {
      assert IsSpace(left[k - i]);
    }
    assert Strip(s) != "" ==> Strip(s)[0] == left[0];
  }

  lemma StripTrims(s: string)
    ensures Trim(Strip(s))
    ensures Strip(s) == s <==> Trim(s)
    ensures forall c | c in Strip(s) :: c in s
  {
    hide IsSpace, Strip;
    var i, j := StripWindow(s);
    if Trim(s) && s != "" {
      assert i == 0 && j == |s|;
    }
  }

  lemma StripAroundLeft(c: char, s: string)
    requires IsSpace(c)
    ensures Strip([c] + s) == Strip(s)
  {
    assert ([c] + s)[1..] == s;
  }

  lemma {:induction false} StripAroundRight(s: string, c: char)
    requires IsSpace(c)
    ensures Strip(s + [c]) == Strip(s)
  {
    if s == "" {
      assert s + [c] == [c] + s;
      StripAroundLeft(c, s);
    } else if IsSpace(s[0]) {
      assert (s + [c])[1..] == s[1..] + [c];
      StripAroundRight(s[1..], c);
    } else {
      assert (s + [c])[..|s|] == s;
    }
  }

  // ----- split -----

  lemma {:induction false} SplitConcat(a: string, b: string, sep: char)
    ensures Split(a + [sep] + b, sep) == Split(a, sep) + Split(b, sep)
  {
    if a == "" {
      assert a + [sep] + b == [sep] + b;
      assert ([sep] + b)[1..] == b;
    } else {
      assert (a + [sep] + b)[1..] == a[1..] + [sep] + b;
      SplitConcat(a[1..], b, sep);
    }
  }

  lemma {:induction false} SplitPieces(s: string, sep: char, k: nat)
    requires k < |Split(s, sep)|
    ensures sep !in Split(s, sep)[k]
    ensures |Split(s, sep)| == 1 ==> sep !in s && Split(s, sep)[0] == s
  {
    if s != "" {
      var rest := Split(s[1..], sep);
      if s[0] == sep {
        if k > 0 {
          SplitPieces(s[1..], sep, k - 1);
        }
      } else {
        SplitPieces(s[1..], sep, k);
        assert s == [s[0]] + s[1..];
      }
    }
  }

  /** Joining the pieces gives the text back; with `SplitPieces`, splitting is its inverse. */
  lemma {:induction false} SplitJoins(s: string)
    ensures Join(Split(s, ',')) == s
  {
    if s != "" {
      SplitJoins(s[1..]);
      var rest := Split(s[1..], ',');
      if s[0] != ',' {
        assert ([[s[0]] + rest[0]] + rest[1..])[1..] == rest[1..];
      }
      assert s == [s[0]] + s[1..];
    }
  }

  lemma {:induction false} SplitNone(s: string, sep: char)
    requires sep !in s
    ensures Split(s, sep) == [s]
  {
    if s != "" {
      SplitNone(s[1..], sep);
      assert s == [s[0]] + s[1..];
    }
  }

  lemma {:induction false} SplitLast(s: string, c: char, sep: char)
    requires c != sep
    ensures var parts := Split(s, sep);
            Split(s + [c], sep) == parts[..|parts| - 1] + [parts[|parts| - 1] + [c]]
  {
    if s == "" {
      assert s + [c] == [c] && [c][1..] == "";
      assert [c] + "" == "" + [c];
      assert [""][..0] + ["" + [c]] == [[c] + ""];
    } else {
      assert (s + [c])[1..] == s[1..] + [c];
      SplitLast(s[1..], c, sep);
      var rest := Split(s[1..], sep);
      if s[0] != sep && |rest| == 1 {
        assert [s[0]] + (rest[0] + [c]) == ([s[0]] + rest[0]) + [c];
      }
    }
  }

  // ----- from_spop_list and to_spop_list -----

  lemma {:induction false} StrippedConcat(a: seq<string>, b: seq<string>)
    ensures Stripped(a + b) == Stripped(a) + Stripped(b)
    ensures NonEmpty(a + b) == NonEmpty(a) + NonEmpty(b)
  {
    if a == [] {
      assert a + b == b;
    } else {
      assert (a + b)[1..] == a[1..] + b;
      StrippedConcat(a[1..], b);
    }
  }

  lemma FromListConcat(a: string, b: string)
    ensures FromList(a + "," + b) == FromList(a) + FromList(b)
  {
    SplitConcat(a, b, ',');
    assert "," == [','];
    StrippedConcat(Split(a, ','), Split(b, ','));
    StrippedConcat(Stripped(Split(a, ',')), Stripped(Split(b, ',')));
  }

  lemma FromListBlankLeft(c: char, s: string)
    requires IsSpace(c)
    ensures FromList([c] + s) == FromList(s)
  {
    assert ([c] + s)[1..] == s;
    StripAroundLeft(c, Split(s, ',')[0]);
  }

  lemma FromListBlankRight(s: string, c: char)
    requires IsSpace(c)
    ensures FromList(s + [c]) == FromList(s)
  {
    var parts := Split(s, ',');
    var front, last := parts[..|parts| - 1], parts[|parts| - 1];
    SplitLast(s, c, ',');
    StripAroundRight(last, c);
    StrippedConcat(front, [last]);
    StrippedConcat(front, [last + [c]]);
    assert parts == front + [last];
    assert Stripped([last + [c]]) == Stripped([last]);
  }

  lemma {:induction false} FromListStripLeft(s: string)
    ensures FromList(StripLeft(s)) == FromList(s)
  {
    if s != "" && IsSpace(s[0]) {
      FromListStripLeft(s[1..]);
      FromListBlankLeft(s[0], s[1..]);
      assert [s[0]] + s[1..] == s;
    }
  }

  lemma {:induction false} FromListStripRight(s: string)
    ensures FromList(StripRight(s)) == FromList(s)
  {
    if s != "" && IsSpace(s[|s| - 1]) {
      FromListStripRight(s[..|s| - 1]);
      FromListBlankRight(s[..|s| - 1], s[|s| - 1]);
      assert s[..|s| - 1] + [s[|s| - 1]] == s;
    }
  }

  /** Blanks around a list do not matter. */
  lemma FromListStrip(s: string)
    ensures FromList(Strip(s)) == FromList(s)
  {
    FromListStripRight(StripLeft(s));
    FromListStripLeft(s);
  }

  /** Writing a list and reading it back flattens the lists inside its items. */
  lemma {:induction false} ListNormalForm(items: seq<string>)
    ensures FromList(ToList(items)) == FlattenLists(items)
  {
    if items != [] {
      FromListStrip(items[0]);
      ListNormalForm(items[1..]);
      if |items| == 1 {
        assert FlattenLists(items[1..]) == [];
      } else {
        FromListConcat(Strip(items[0]), ToList(items[1..]));
      }
    }
  }

  /** The items a list can hold on the wire. */
  predicate CleanItem(s: string) {
    s != "" && Trim(s) && ',' !in s
  }

  predicate Clean(items: seq<string>) {
    forall i | 0 <= i < |items| :: CleanItem(items[i])
  }

  lemma {:induction false} FlattenClean(items: seq<string>)
    requires Clean(items)
    ensures FlattenLists(items) == items
  {
    if items != [] {
      SplitNone(items[0], ',');
      StripTrims(items[0]);
      assert Stripped([items[0]]) == [items[0]];
      assert FromList(items[0]) == NonEmpty([items[0]]) == [items[0]];
      FlattenClean(items[1..]);
      assert items == [items[0]] + items[1..];
    }
  }

  lemma {:induction false} NonEmptyClean(items: seq<string>)
    requires forall i | 0 <= i < |items| :: Trim(items[i]) && ',' !in items[i]
    ensures Clean(NonEmpty(items))
  {
    if items != [] {
      NonEmptyClean(items[1..]);
    }
  }

  lemma {:induction false} StrippedAt(items: seq<string>, k: nat)
    requires k < |items|
    ensures Stripped(items)[k] == Strip(items[k])
  {
    if k > 0 {
      StrippedAt(items[1..], k - 1);
    }
  }

  lemma FromListClean(s: string)
    ensures Clean(FromList(s))
  {
    var parts := Split(s, ',');
    forall k | 0 <= k < |parts|
      ensures Trim(Stripped(parts)[k]) && ',' !in Stripped(parts)[k]
    {
      StrippedAt(parts, k);
      SplitPieces(s, ',', k);
      StripTrims(parts[k]);
    }
    NonEmptyClean(Stripped(parts));
  }

  /** A list survives the wire exactly when its items are clean, and every list that came
      off the wire is. */
  lemma ListSurvives(items: seq<string>)
    ensures FromList(ToList(items)) == items <==> Clean(items)
  {
    ListNormalForm(items);
    FromListClean(ToList(items));
    if Clean(items) {
      FlattenClean(items);
    }
  }
}
