/** `String.prototype.split` on one separator character, `Array.prototype.join`, and the
    word helpers built on them across the screens: the first-n-words truncation, the
    `truncateText` ellipsis rule, the per-word title case, the sentence case, and the
    last path segment of a URL.
 */
module Words {
  import opened Text
  import opened Results

  // ---------------------------------------------------------------------------
  // split / join

  /** `s.split(d)`: never empty; an empty string gives one empty piece. */
  function Split(s: string, d: char): (r: seq<string>)
    ensures |r| >= 1
  {
    if |s| == 0 then [""]
    else
      var rest := Split(s[1..], d);
      if s[0] == d then [""] + rest else [[s[0]] + rest[0]] + rest[1..]
  }

  /** `ws.join(d)`. */
  function Join(ws: seq<string>, d: char): string {
    if |ws| == 0 then ""
    else if |ws| == 1 then ws[0]
    else ws[0] + [d] + Join(ws[1..], d)
  }

  predicate NoSep(ws: seq<string>, d: char) {
    forall k :: 0 <= k < |ws| ==> d !in ws[k]
  }

  /** The pieces of a split never hold the separator. */
  lemma {:induction false} SplitNoSep(s: string, d: char)
    ensures NoSep(Split(s, d), d)
  {
    if |s| > 0 {
      SplitNoSep(s[1..], d);
      var rest := Split(s[1..], d);
      if s[0] != d {
        assert d !in rest[0];
        assert d !in [s[0]] + rest[0];
      }
    }
  }

  lemma JoinConsFirst(c: char, w: string, ws: seq<string>, d: char)
    ensures Join([[c] + w] + ws, d) == [c] + Join([w] + ws, d)
  {
    if |ws| > 0 {
      assert ([[c] + w] + ws)[1..] == ws;
      assert ([w] + ws)[1..] == ws;
    }
  }

  /** Joining the pieces of a split gives back the original string. */
  lemma {:induction false} JoinSplit(s: string, d: char)
    ensures Join(Split(s, d), d) == s
  {
    if |s| > 0 {
      JoinSplit(s[1..], d);
      var rest := Split(s[1..], d);
      if s[0] == d {
        assert ([""] + rest)[1..] == rest;
      } else {
        JoinConsFirst(s[0], rest[0], rest[1..], d);
        assert [rest[0]] + rest[1..] == rest;
      }
    }
  }

  /** A separator-free word: split gives it back as the only piece. */
  lemma {:induction false} SplitWord(w: string, d: char)
    requires d !in w
    ensures Split(w, d) == [w]
  {
    if |w| > 0 {
      assert w == [w[0]] + w[1..];
      assert w[0] != d && d !in w[1..];
      SplitWord(w[1..], d);
    }
  }

  /** Splitting `w + d + t` for a separator-free `w` peels off `w`. */
  lemma {:induction false} SplitAfterWord(w: string, t: string, d: char)
    requires d !in w
    ensures Split(w + [d] + t, d) == [w] + Split(t, d)
  {
    if |w| == 0 {
      assert w + [d] + t == [d] + t;
      assert ([d] + t)[1..] == t;
    } else {
      var s := w + [d] + t;
      assert s[1..] == w[1..] + [d] + t;
      SplitAfterWord(w[1..], t, d);
      assert [w[0]] + w[1..] == w;
    }
  }

  /** Splitting a join of separator-free words gives back the words. */
  lemma {:induction false} SplitJoin(ws: seq<string>, d: char)
    requires |ws| >= 1 && NoSep(ws, d)
    ensures Split(Join(ws, d), d) == ws
  {
    if |ws| == 1 {
      SplitWord(ws[0], d);
    } else {
      SplitJoin(ws[1..], d);
      assert d !in ws[0];
      SplitAfterWord(ws[0], Join(ws[1..], d), d);
      assert [ws[0]] + ws[1..] == ws;
    }
  }

  /** Joining a prefix of the words gives a prefix of the joined text. */
  lemma {:induction false} JoinPrefix(ws: seq<string>, k: nat, d: char)
    requires k <= |ws|
    ensures Join(ws[..k], d) <= Join(ws, d)
  {
    if k > 0 && |ws| > 1 {
      if k == 1 {
        assert ws[..1] == [ws[0]];
      } else {
        JoinPrefix(ws[1..], k - 1, d);
        assert ws[..k][1..] == ws[1..][..k - 1];
      }
    } else if k > 0 {
      assert ws[..k] == ws;
    }
  }

  /** Appending separator-free text to a join extends its last word. */
  lemma {:induction false} JoinAppendLast(ws: seq<string>, t: string, d: char)
    requires |ws| >= 1
    ensures Join(ws, d) + t == Join(ws[..|ws| - 1] + [ws[|ws| - 1] + t], d)
  {
    if |ws| > 1 {
      JoinAppendLast(ws[1..], t, d);
      var u := ws[..|ws| - 1] + [ws[|ws| - 1] + t];
      assert u[1..] == ws[1..][..|ws[1..]| - 1] + [ws[1..][|ws[1..]| - 1] + t];
    }
  }

  /** Number of `d`-separated pieces: `s.split(d).length`. */
  function WordCount(s: string): nat {
    |Split(s, ' ')|
  }

  // ---------------------------------------------------------------------------
  // Truncation

  /** `s.split(' ').slice(0, n).join(' ')`. */
  function FirstWords(s: string, n: nat): (r: string)
    ensures r <= s
    ensures WordCount(s) <= n ==> r == s
  {
    var ws := Split(s, ' ');
    var k := if n < |ws| then n else |ws|;
    JoinSplit(s, ' ');
    JoinPrefix(ws, k, ' ');
    assert k == |ws| ==> ws[..k] == ws;
    Join(ws[..k], ' ')
  }

  /** The first `n` words are a prefix of the text; they are the whole text exactly
      when it has at most `n` words; and they are `min(n, WordCount)` words long. */
  lemma FirstWordsSpec(s: string, n: nat)
    ensures FirstWords(s, n) <= s
    ensures WordCount(s) <= n ==> FirstWords(s, n) == s
    ensures n >= 1 ==> WordCount(FirstWords(s, n)) == (if n < WordCount(s) then n else WordCount(s))
  {
    var ws := Split(s, ' ');
    var k := if n < |ws| then n else |ws|;
    JoinSplit(s, ' ');
    JoinPrefix(ws, k, ' ');
    if k == |ws| {
      assert ws[..k] == ws;
    }
    if n >= 1 {
      SplitNoSep(s, ' ');
      assert NoSep(ws[..k], ' ');
      SplitJoin(ws[..k], ' ');
    }
  }

  /** The words of the first `n` words are the leading words of the text. */
  lemma FirstWordsSplit(s: string, n: nat)
    requires n >= 1
    ensures var ws := Split(s, ' ');
      Split(FirstWords(s, n), ' ') == ws[..if n < |ws| then n else |ws|]
  {
    var ws := Split(s, ' ');
    var k := if n < |ws| then n else |ws|;
    SplitNoSep(s, ' ');
    assert NoSep(ws[..k], ' ');
    SplitJoin(ws[..k], ' ');
  }

  /** Cutting to `n` words and then to `m <= n` words is cutting to `m` words. */
  lemma FirstWordsNested(s: string, m: nat, n: nat)
    requires 1 <= m <= n
    ensures FirstWords(FirstWords(s, n), m) == FirstWords(s, m)
  {
    var ws := Split(s, ' ');
    var k := if n < |ws| then n else |ws|;
    FirstWordsSplit(s, n);
    var vs := Split(FirstWords(s, n), ' ');
    assert vs == ws[..k];
    var j := if m < |vs| then m else |vs|;
    assert vs[..j] == ws[..if m < |ws| then m else |ws|];
  }

  /** `truncateText(text, wordLimit)` of the product cards: more than `wordLimit`
      words are cut to the first `wordLimit` followed by "...". */
  function TruncateText(text: string, wordLimit: nat): (r: string)
    ensures WordCount(text) <= wordLimit ==> r == text
    ensures WordCount(text) > wordLimit ==> |r| >= 3 && r[|r| - 3..] == "..." && r[..|r| - 3] <= text
  {
    if WordCount(text) > wordLimit then
      var cut := FirstWords(text, wordLimit);
      assert (cut + "...")[..|cut|] == cut;
      cut + "..."
    else text
  }


  /** What `truncateText` returns, in terms of the words of its input. */
  lemma TruncateTextSpec(text: string, wordLimit: nat)
    ensures WordCount(text) <= wordLimit ==> TruncateText(text, wordLimit) == text
    ensures WordCount(text) > wordLimit ==>
      var r := TruncateText(text, wordLimit);
      && |r| >= 3 && r[|r| - 3..] == "..."
      && r[..|r| - 3] <= text
      && r[..|r| - 3] == Join(Split(text, ' ')[..wordLimit], ' ')
  {
    var r := TruncateText(text, wordLimit);
    if WordCount(text) > wordLimit {
      FirstWordsSpec(text, wordLimit);
      assert r[..|r| - 3] == FirstWords(text, wordLimit);
    }
  }

  /** Truncating twice with the same limit gives the same text as truncating once. */
  lemma TruncateTextIdempotent(text: string, wordLimit: nat)
    ensures TruncateText(TruncateText(text, wordLimit), wordLimit) == TruncateText(text, wordLimit)
  {
    if WordCount(text) > wordLimit {
      var ws := Split(text, ' ');
      var pre := ws[..wordLimit];
      var r := FirstWords(text, wordLimit) + "...";
      assert TruncateText(text, wordLimit) == r;
      assert FirstWords(text, wordLimit) == Join(pre, ' ');
      SplitNoSep(text, ' ');
      if wordLimit == 0 {
        assert pre == [];
        assert r == "...";
        SplitWord("...", ' ');
      } else {
        JoinAppendLast(pre, "...", ' ');
        var u := pre[..|pre| - 1] + [pre[|pre| - 1] + "..."];
        assert ' ' !in pre[|pre| - 1];
        assert ' ' !in pre[|pre| - 1] + "...";
        assert NoSep(u, ' ');
        SplitJoin(u, ' ');
        assert WordCount(r) == wordLimit;
      }
      assert TruncateText(r, wordLimit) == r;
    }
  }

  // ---------------------------------------------------------------------------
  // Title case and sentence case

  /** `word.charAt(0).toUpperCase() + word.slice(1).toLowerCase()`. */
  function CapWord(w: string): string {
    if |w| == 0 then "" else [Upper(w[0])] + LowerStr(w[1..])
  }

  function MapCap(ws: seq<string>): (r: seq<string>)
    ensures |r| == |ws|
  {
    if |ws| == 0 then [] else [CapWord(ws[0])] + MapCap(ws[1..])
  }

  /** `text.split(' ').map(capitalise-word).join(' ')`. */
  function TitleCase(s: string): (r: string)
    ensures WordCount(r) == WordCount(s)
    ensures forall k :: 0 <= k < WordCount(s) ==> Split(r, ' ')[k] == CapWord(Split(s, ' ')[k])
  {
    var ws := Split(s, ' ');
    SplitNoSep(s, ' ');
    CapWordsNoSpace(ws);
    SplitJoin(MapCap(ws), ' ');
    MapCapAt(ws);
    Join(MapCap(ws), ' ')
  }

  lemma {:induction false} MapCapAt(ws: seq<string>)
    ensures forall k :: 0 <= k < |ws| ==> MapCap(ws)[k] == CapWord(ws[k])
  {
    if |ws| > 0 {
      MapCapAt(ws[1..]);
      assert forall k :: 1 <= k < |ws| ==> MapCap(ws)[k] == MapCap(ws[1..])[k - 1];
    }
  }

  /** Reference title case, one character at a time: a character is upper-cased when
      it starts the text or follows a space, and lower-cased otherwise. */
  function TitleChars(s: string, atStart: bool): (r: string)
    ensures |r| == |s|
  {
    if |s| == 0 then ""
    else [if atStart then Upper(s[0]) else Lower(s[0])] + TitleChars(s[1..], s[0] == ' ')
  }

  /** Title case of `s` with its first word lower-cased rather than capitalised. */
  function TitleTail(s: string): string {
    var ws := Split(s, ' ');
    Join([LowerStr(ws[0])] + MapCap(ws[1..]), ' ')
  }

  lemma {:induction false} TitleCaseChars(s: string)
    ensures TitleCase(s) == TitleChars(s, true)
    ensures TitleTail(s) == TitleChars(s, false)
  {
    if |s| > 0 {
      TitleCaseChars(s[1..]);
      var rest := Split(s[1..], ' ');
      if s[0] == ' ' {
        assert Split(s, ' ') == [""] + rest;
        assert MapCap([""] + rest) == [""] + MapCap(rest);
        assert MapCap(rest) == [CapWord(rest[0])] + MapCap(rest[1..]);
        assert TitleCase(s) == " " + TitleCase(s[1..]);
        assert TitleTail(s) == " " + TitleCase(s[1..]);
      } else {
        var w := [s[0]] + rest[0];
        assert Split(s, ' ') == [w] + rest[1..];
        assert w[1..] == rest[0];
        assert CapWord(w) == [Upper(s[0])] + LowerStr(rest[0]);
        assert MapCap([w] + rest[1..]) == [CapWord(w)] + MapCap(rest[1..]);
        JoinConsFirst(Upper(s[0]), LowerStr(rest[0]), MapCap(rest[1..]), ' ');
        assert LowerStr(w) == [Lower(s[0])] + LowerStr(rest[0]);
        JoinConsFirst(Lower(s[0]), LowerStr(rest[0]), MapCap(rest[1..]), ' ');
      }
    }
  }

  lemma {:induction false} TitleCharsAt(s: string, atStart: bool, i: nat)
    requires i < |s|
    ensures TitleChars(s, atStart)[i] ==
      if (i == 0 && atStart) || (i > 0 && s[i - 1] == ' ') then Upper(s[i]) else Lower(s[i])
  {
    if i > 0 {
      TitleCharsAt(s[1..], s[0] == ' ', i - 1);
    }
  }

  /** The title case of the screens keeps the length of the text, upper-cases every
      character that starts the text or follows a space, and lower-cases all others. */
  lemma TitleCaseSpec(s: string)
    ensures |TitleCase(s)| == |s|
    ensures forall i :: 0 <= i < |s| ==>
      TitleCase(s)[i] == if i == 0 || s[i - 1] == ' ' then Upper(s[i]) else Lower(s[i])
  {
    TitleCaseChars(s);
    forall i | 0 <= i < |s|
      ensures TitleCase(s)[i] == if i == 0 || s[i - 1] == ' ' then Upper(s[i]) else Lower(s[i])
    {
      TitleCharsAt(s, true, i);
    }
  }

  /** Title-casing keeps the word count, and applying it twice changes nothing. */
  lemma TitleCaseWords(s: string)
    ensures WordCount(TitleCase(s)) == WordCount(s)
    ensures TitleCase(TitleCase(s)) == TitleCase(s)
  {
    var t := TitleCase(s);
    TitleCaseSpec(s);
    TitleCaseSpec(t);
    forall i | 0 <= i < |s| ensures (t[i] == ' ') == (s[i] == ' ') {
      LowerCharFacts(s[i]);
      assert t[i] == if i == 0 || s[i - 1] == ' ' then Upper(s[i]) else Lower(s[i]);
    }
    forall i | 0 <= i < |s|
      ensures TitleCase(t)[i] == t[i]
    {
      LowerCharFacts(s[i]);
      assert t[i] == if i == 0 || s[i - 1] == ' ' then Upper(s[i]) else Lower(s[i]);
      assert TitleCase(t)[i] == if i == 0 || t[i - 1] == ' ' then Upper(t[i]) else Lower(t[i]);
      if i > 0 {
        assert (t[i - 1] == ' ') == (s[i - 1] == ' ');
      }
    }
    SplitNoSep(s, ' ');
    CapWordsNoSpace(Split(s, ' '));
    SplitJoin(MapCap(Split(s, ' ')), ' ');
  }

  lemma {:induction false} CapWordsNoSpace(ws: seq<string>)
    requires NoSep(ws, ' ')
    ensures NoSep(MapCap(ws), ' ')
  {
    if |ws| > 0 {
      CapWordsNoSpace(ws[1..]);
      var w := ws[0];
      if |w| > 0 {
        assert ' ' !in w;
        forall k | 0 <= k < |w| ensures CapWord(w)[k] != ' ' {
          LowerCharFacts(w[k]);
        }
        assert ' ' !in CapWord(w);
      }
      assert MapCap(ws)[1..] == MapCap(ws[1..]);
    }
  }

  /** The lower-cased text, except that a micro sign starting a word becomes the Greek
      small mu: what lower-casing the text after capitalizing its words gives. */
  function LowerRecapped(s: string): (r: string)
    ensures |r| == |s|
    ensures MicroSign !in s ==> r == LowerStr(s)
  {
    seq(|s|, i requires 0 <= i < |s| =>
      if (i == 0 || s[i - 1] == ' ') && s[i] == MicroSign then SmallMu else Lower(s[i]))
  }

  /** Title case only changes letter case: lower-casing its result gives the lower-cased
      input, apart from a word-initial micro sign, which `toUpperCase` turns into the
      Greek capital mu; and it leaves a blank text blank and a non-blank one non-blank. */
  lemma TitleCaseLower(s: string)
    ensures LowerStr(TitleCase(s)) == LowerRecapped(s)
    ensures MicroSign !in s ==> LowerStr(TitleCase(s)) == LowerStr(s)
    ensures HasText(TitleCase(s)) == HasText(s)
  {
    var t := TitleCase(s);
    TitleCaseSpec(s);
    forall i | 0 <= i < |s| ensures Lower(t[i]) == LowerRecapped(s)[i] && IsSpace(t[i]) == IsSpace(s[i]) {
      LowerCharFacts(s[i]);
      assert t[i] == if i == 0 || s[i - 1] == ' ' then Upper(s[i]) else Lower(s[i]);
    }
    TrimEmptyIff(s);
    TrimEmptyIff(t);
  }

  /** A brand "µm", capitalized and lower-cased again, becomes "μm" with the Greek mu. */
  lemma TitleCaseMicroExample()
    ensures TitleCase([MicroSign, 'm']) == [CapitalMu, 'm']
    ensures LowerStr(TitleCase([MicroSign, 'm'])) == [SmallMu, 'm'] != LowerStr([MicroSign, 'm'])
  {
    var s := [MicroSign, 'm'];
    TitleCaseSpec(s);
    TitleCaseLower(s);
    assert LowerRecapped(s) == [SmallMu, 'm'];
    assert LowerStr(s) == [MicroSign, 'm'];
  }

  /** `text.charAt(0).toUpperCase() + text.slice(1).toLowerCase()`. */
  function SentenceCase(s: string): (r: string)
    ensures |r| == |s|
    ensures |s| > 0 ==> r[0] == Upper(s[0])
    ensures forall i :: 0 < i < |s| ==> r[i] == Lower(s[i])
  {
    CapWord(s)
  }

  /** Sentence case keeps the length, upper-cases only the first character and
      lower-cases every other one (spaces included, which it leaves as they are). */
  lemma SentenceCaseSpec(s: string)
    ensures |SentenceCase(s)| == |s|
    ensures |s| > 0 ==> SentenceCase(s)[0] == Upper(s[0])
    ensures forall i :: 0 < i < |s| ==> SentenceCase(s)[i] == Lower(s[i])
    ensures SentenceCase(SentenceCase(s)) == SentenceCase(s)
  {
    if |s| > 0 {
      LowerCharFacts(s[0]);
      LowerStrIdempotent(s[1..]);
    }
  }

  // ---------------------------------------------------------------------------
  // Pieces of URLs and data URLs

  /** `url.split("/").pop() || ""`: the text after the last slash (the whole text when
      there is none; `pop` of a split never yields undefined). */
  function LastSegment(url: string): (r: string)
    ensures '/' !in r
  {
    var ps := Split(url, '/');
    SplitNoSep(url, '/');
    ps[|ps| - 1]
  }

  /** The last segment holds no slash, and the URL is some slash-terminated prefix (or
      nothing) followed by it. */
  lemma LastSegmentSpec(url: string)
    ensures '/' !in LastSegment(url)
    ensures |LastSegment(url)| <= |url|
    ensures url[|url| - |LastSegment(url)|..] == LastSegment(url)
    ensures |LastSegment(url)| < |url| ==> url[|url| - |LastSegment(url)| - 1] == '/'
  {
    var ps := Split(url, '/');
    SplitNoSep(url, '/');
    JoinSplit(url, '/');
    if |ps| > 1 {
      var front := ps[..|ps| - 1];
      JoinLast(ps, '/');
      assert url == Join(front, '/') + "/" + ps[|ps| - 1];
    } else {
      assert url == ps[0];
    }
  }

  lemma {:induction false} JoinLast(ws: seq<string>, d: char)
    requires |ws| >= 2
    ensures Join(ws, d) == Join(ws[..|ws| - 1], d) + [d] + ws[|ws| - 1]
  {
    if |ws| > 2 {
      JoinLast(ws[1..], d);
      assert ws[1..][..|ws| - 2] == ws[..|ws| - 1][1..];
    } else {
      assert ws[..1] == [ws[0]];
    }
  }

  /** `s.split(d)[k]`, or None for JavaScript's `undefined` when there are fewer pieces. */
  function Piece(s: string, d: char, k: nat): Option<string> {
    var ps := Split(s, d);
    if k < |ps| then Some(ps[k]) else None
  }

  /** A data URL "header,payload" (no commas in either part) yields its payload as the
      second comma-separated piece; a text without a comma yields nothing. */
  lemma DataUrlPayload(header: string, payload: string)
    requires ',' !in header && ',' !in payload
    ensures Piece(header + "," + payload, ',', 1) == Some(payload)
    ensures Piece(header, ',', 1) == None
  {
    SplitAfterWord(header, payload, ',');
    SplitWord(payload, ',');
    SplitWord(header, ',');
  }
}
