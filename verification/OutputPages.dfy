/**
 Paging through a process's output file by byte cursors without splitting a
 character.
 */
module OutputPages {
  import opened Common
  import opened Utf8
  import Cursors

  /** One segment: the size of the file, where the segment starts, its text, and how many bytes it took. */
  datatype Segment = Segment(total: nat, start: nat, content: seq<Scalar>, consumed: nat)

  /** The first position from i on that does not hold a continuation byte. */
  function Skip(file: seq<Byte>, i: nat): (r: nat)
    requires i <= |file|
    ensures i <= r <= |file|
    ensures forall j :: i <= j < r ==> Continuation(file[j])
    ensures r < |file| ==> !Continuation(file[r])
    decreases |file| - i
  {
    if i < |file| && Continuation(file[i]) then Skip(file, i + 1) else i
  }

  function Least(a: nat, b: nat): nat {
    if a < b then a else b
  }

  function Start(file: seq<Byte>, offset: nat): (r: nat)
    ensures r <= |file|
  {
    if Least(offset, |file|) == 0 then 0 else Skip(file, Least(offset, |file|))
  }

  /** Decode some bytes after cutting off a truncated character at their end; none when nothing is left. */
  function Trimmed(data: seq<Byte>): Option<(seq<Scalar>, nat)>
    decreases |data|
  {
    if data == [] then None
    else
      match Decode(data)
      case Ok(text) => Some((text, |data|))
      case Bad(start, end, unexpectedEnd) =>
        if unexpectedEnd then Trimmed(data[..start]) else Some((DecodeReplacing(data), |data|))
  }

  function ReadFrom(file: seq<Byte>, start: nat, maxBytes: nat): Segment
    requires start <= |file|
  {
    var data := file[start..][..Least(maxBytes, |file| - start)];
    if data == [] then Segment(|file|, start, [], 0)
    else
      match Trimmed(data)
      case Some((text, n)) => Segment(|file|, start, text, n)
      case None =>
        var extended := file[start..][..Least(4, |file| - start)];
        Segment(|file|, start, DecodeReplacing(extended), |extended|)
  }

  function Read(file: seq<Byte>, offset: nat, maxBytes: nat): Segment {
    ReadFrom(file, Start(file, offset), maxBytes)
  }

  /** Reading a segment with a file position that moves. */
  method ReadUtf8Bytes(file: seq<Byte>, offset: nat, maxBytes: nat) returns (r: Segment)
    ensures r == Read(file, offset, maxBytes)
  {
    var total := |file|;
    var start := if offset < total then offset else total;
    var position := 0;
    if start != 0 {
      ghost var from := start;
      position := start;
      while start < total
        invariant from <= start <= total && position == start
        invariant Skip(file, start) == Skip(file, from)
        decreases total - start
      {
        var marker := file[position];
        position := position + 1;
        if !Continuation(marker) {
          break;
        }
        start := start + 1;
      }
      position := start;
    }
    assert start == Start(file, offset);
    var data := file[position..][..Least(maxBytes, total - position)];
    position := position + |data|;
    if data == [] {
      return Segment(total, start, [], 0);
    }
    ghost var read := data;
    while data != []
      invariant Trimmed(data) == Trimmed(read)
      decreases |data|
    {
      match Decode(data)
      case Ok(text) => return Segment(total, start, text, |data|);
      case Bad(errorStart, errorEnd, unexpectedEnd) =>
        if errorEnd == |data| && unexpectedEnd {
          data := data[..errorStart];
        } else {
          return Segment(total, start, DecodeReplacing(data), |data|);
        }
    }
    position := start;
    var extended := file[position..][..Least(4, total - start)];
    r := Segment(total, start, DecodeReplacing(extended), |extended|);
  }

  // ------------------------------------------------------------- code-point boundaries

  /** The offset of the k-th character. */
  function At(text: seq<Scalar>, k: nat): (r: nat)
    requires k <= |text|
  {
    |Encode(text[..k])|
  }

  lemma AtStep(text: seq<Scalar>, k: nat)
    requires k < |text|
    ensures At(text, k + 1) == At(text, k) + |EncodeChar(text[k])|
    ensures Encode(text[..k + 1]) == Encode(text[..k]) + EncodeChar(text[k])
  {
    assert text[..k + 1] == text[..k] + [text[k]];
    EncodeConcat(text[..k], [text[k]]);
    assert Encode([text[k]]) == EncodeChar(text[k]) + Encode([]);
  }

  /** The encoding splits at every character. */
  lemma AtSplits(text: seq<Scalar>, k: nat)
    requires k <= |text|
    ensures At(text, k) <= |Encode(text)|
    ensures Encode(text)[..At(text, k)] == Encode(text[..k]) && Encode(text)[At(text, k)..] == Encode(text[k..])
    ensures At(text, 0) == 0 && At(text, |text|) == |Encode(text)|
  {
    assert text == text[..k] + text[k..];
    EncodeConcat(text[..k], text[k..]);
    assert text[..|text|] == text && text[..0] == [];
  }

  lemma {:induction false} AtRises(text: seq<Scalar>, i: nat, j: nat)
    requires i <= j <= |text|
    ensures At(text, i) + (j - i) <= At(text, j)
  {
    if i < j {
      AtRises(text, i, j - 1);
      AtStep(text, j - 1);
    }
  }

  /** The character at the front of what is left. */
  lemma FrontChar(text: seq<Scalar>, k: nat)
    requires k < |text|
    ensures var file, a := Encode(text), At(text, k);
            a + |EncodeChar(text[k])| <= |file| && file[a..a + |EncodeChar(text[k])|] == EncodeChar(text[k])
  {
    AtSplits(text, k);
    AtStep(text, k);
    AtSplits(text, k + 1);
    var file, a, e := Encode(text), At(text, k), EncodeChar(text[k]);
    assert file[a..a + |e|] == file[..a + |e|][a..];
  }

  lemma CharStarts(text: seq<Scalar>, k: nat)
    requires k < |text|
    ensures At(text, k) < |Encode(text)| && !Continuation(Encode(text)[At(text, k)])
  {
    hide EncodeChar, Encode;
    FrontChar(text, k);
    CharBytes(text[k]);
    var a, e := At(text, k), EncodeChar(text[k]);
    assert Encode(text)[a] == Encode(text)[a..a + |e|][0];
  }

  lemma CharGoesOn(text: seq<Scalar>, k: nat, j: nat)
    requires k < |text| && At(text, k) < j < At(text, k + 1)
    ensures j < |Encode(text)| && Continuation(Encode(text)[j])
  {
    hide EncodeChar, Encode;
    FrontChar(text, k);
    AtStep(text, k);
    CharBytes(text[k]);
    var a, e := At(text, k), EncodeChar(text[k]);
    assert Encode(text)[j] == Encode(text)[a..a + |e|][j - a] == e[j - a];
  }

  /** From inside a character, or at its start, the position found is the next start. */
  lemma {:induction false} SkipFinds(text: seq<Scalar>, i: nat, k: nat)
    requires k <= |text| && i <= At(text, k) <= |Encode(text)|
    requires if k > 0 then At(text, k - 1) < i else i == 0
    ensures Skip(Encode(text), i) == At(text, k)
    decreases At(text, k) - i
  {
    AtSplits(text, k);
    AtSplits(text, 0);
    if i < At(text, k) {
      CharGoesOn(text, k - 1, i);
      SkipFinds(text, i + 1, k);
    } else if k < |text| {
      CharStarts(text, k);
    }
  }

  /** The first character at or after an offset. */
  function NextChar(text: seq<Scalar>, offset: nat, k: nat): (r: nat)
    requires k <= |text|
    ensures k <= r <= |text|
    ensures r < |text| ==> At(text, r) >= offset
    ensures forall j :: k <= j < r ==> At(text, j) < offset
    decreases |text| - k
  {
    if k < |text| && At(text, k) < offset then NextChar(text, offset, k + 1) else k
  }

  /** An arbitrary offset snaps to the next character: the first one that starts at or after it, or the end. */
  lemma OffsetSnaps(text: seq<Scalar>, offset: nat)
    ensures var k := NextChar(text, offset, 0);
            && Start(Encode(text), offset) == At(text, k)
            && (forall j :: 0 <= j < k ==> At(text, j) < offset)
            && (k < |text| ==> At(text, k) >= offset)
  {
    hide Encode;
    var file := Encode(text);
    var k := NextChar(text, offset, 0);
    AtSplits(text, k);
    AtSplits(text, 0);
    AtSplits(text, |text|);
    AtRises(text, 0, |text|);
    if Least(offset, |file|) != 0 {
      if k > 0 { AtRises(text, k - 1, |text|); }
      SkipFinds(text, Least(offset, |file|), k);
    }
  }

  // -------------------------------------------------------------------- one page

  /** How many whole characters from the k-th on fit into n bytes, as the index after the last. */
  function Fits(text: seq<Scalar>, k: nat, n: nat): (j: nat)
    requires k <= |text|
    ensures k <= j <= |text|
    decreases |text| - k
  {
    if k < |text| && |EncodeChar(text[k])| <= n then Fits(text, k + 1, n - |EncodeChar(text[k])|) else k
  }

  lemma {:induction false} FitsBetween(text: seq<Scalar>, k: nat, n: nat)
    requires k <= |text|
    ensures var j := Fits(text, k, n);
            At(text, k) <= At(text, j) <= At(text, k) + n && (j < |text| ==> At(text, k) + n < At(text, j + 1))
    decreases |text| - k
  {
    hide EncodeChar;
    if k < |text| {
      AtStep(text, k);
      if |EncodeChar(text[k])| <= n { FitsBetween(text, k + 1, n - |EncodeChar(text[k])|); }
    }
  }

  /** The bytes between two characters are the encoding of the characters between. */
  lemma Between(text: seq<Scalar>, k: nat, j: nat)
    requires k <= j <= |text|
    ensures At(text, k) <= At(text, j) <= |Encode(text)|
    ensures Encode(text)[At(text, k)..At(text, j)] == Encode(text[k..j])
  {
    hide Encode;
    AtRises(text, k, j);
    AtSplits(text, j);
    AtSplits(text, k);
    assert text[..j] == text[..k] + text[k..j];
    EncodeConcat(text[..k], text[k..j]);
    var file := Encode(text);
    assert file[At(text, k)..At(text, j)] == file[..At(text, j)][At(text, k)..];
  }

  lemma Slices(file: seq<Byte>, b: nat, n: nat, m: nat)
    requires b + n <= |file| && m <= n
    ensures file[b..b + n][..m] == file[b..b + m]
    ensures file[b..][..n] == file[b..b + m] + file[b + m..b + n]
  {
  }

  /** A window from a character on: the characters that fit, then a proper part of the next. */
  lemma Window(text: seq<Scalar>, k: nat, n: nat)
    requires k <= |text| && At(text, k) + n <= |Encode(text)|
    ensures var j := Fits(text, k, n);
            var data, m := Encode(text)[At(text, k)..][..n], At(text, k) + n - At(text, j);
            if j == |text| then m == 0 && data == Encode(text[k..j])
            else 0 <= m < |EncodeChar(text[j])| && data == Encode(text[k..j]) + EncodeChar(text[j])[..m]
  {
    hide Encode, EncodeChar, At, Fits;
    var file, j := Encode(text), Fits(text, k, n);
    var a, b := At(text, k), At(text, j);
    FitsBetween(text, k, n);
    Between(text, k, j);
    var m := a + n - b;
    Slices(file, a, n, b - a);
    if j < |text| {
      FrontChar(text, j);
      AtStep(text, j);
      Slices(file, b, |EncodeChar(text[j])|, m);
    } else {
      AtSplits(text, j);
    }
  }

  /** Trimming a window keeps exactly the whole characters. */
  lemma WindowTrims(text: seq<Scalar>, k: nat, n: nat)
    requires k <= |text| && 0 < n && At(text, k) + n <= |Encode(text)|
    ensures var j := Fits(text, k, n);
            Trimmed(Encode(text)[At(text, k)..][..n]) ==
            if j > k then Some((text[k..j], At(text, j) - At(text, k))) else None
  {
    hide Encode, EncodeChar, Decode;
    var j := Fits(text, k, n);
    var data, m := Encode(text)[At(text, k)..][..n], At(text, k) + n - At(text, j);
    var whole := text[k..j];
    Window(text, k, n);
    Between(text, k, j);
    DecodeOfEncode(whole);
    if m == 0 {
      if j < |text| { assert Encode(whole) + EncodeChar(text[j])[..m] == Encode(whole); }
      assert data == Encode(whole);
      EmptyEncoding();
      assert j == k ==> whole == [];
    } else {
      DecodeCut(whole, text[j], m);
      assert data[..|Encode(whole)|] == Encode(whole);
      TrimAgain(data, whole);
      EmptyEncoding();
      assert j == k ==> whole == [];
      AtRises(text, k, j);
    }
  }

  lemma EmptyEncoding()
    ensures Encode([]) == []
  {
  }

  lemma TrimAgain(data: seq<Byte>, whole: seq<Scalar>)
    requires data != [] && Decode(data) == Bad(|Encode(whole)|, |data|, true)
             && data[..|Encode(whole)|] == Encode(whole)
    ensures Trimmed(data) == if Encode(whole) == [] then None else Some((whole, |Encode(whole)|))
  {
    hide Encode, Decode;
    DecodeOfEncode(whole);
  }

  /** A page from the k-th character whose budget holds that character: whole characters, all that fit. */
  lemma PageOfWholeChars(text: seq<Scalar>, k: nat, maxBytes: nat)
    requires k < |text| && |EncodeChar(text[k])| <= maxBytes
    ensures var file := Encode(text);
            At(text, k) <= |file|
            && var j := Fits(text, k, Least(maxBytes, |file| - At(text, k)));
               j > k && At(text, j) >= At(text, k)
               && ReadFrom(file, At(text, k), maxBytes) ==
                   Segment(|file|, At(text, k), text[k..j], At(text, j) - At(text, k))
  {
    hide Encode, EncodeChar, Trimmed;
    FrontChar(text, k);
    var n := Least(maxBytes, |Encode(text)| - At(text, k));
    WindowTrims(text, k, n);
    FitsBetween(text, k, n);
  }

  /** The offset is the start of a character from the k-th on, or the end. */
  ghost predicate CharAt(text: seq<Scalar>, k: nat, offset: nat)
    requires k <= |text|
  {
    exists j :: k <= j <= |text| && At(text, j) == offset
  }

  lemma SameOffsetSameChar(text: seq<Scalar>, i: nat, j: nat)
    requires i <= |text| && j <= |text| && At(text, i) == At(text, j)
    ensures i == j
  {
    if i < j { AtRises(text, i, j); } else { AtRises(text, j, i); }
  }

  lemma SmallBudget(text: seq<Scalar>, k: nat, maxBytes: nat)
    requires k < |text| && 1 <= maxBytes < |EncodeChar(text[k])|
    ensures At(text, k) < |Encode(text)|
    ensures var file := Encode(text);
            var w := Least(4, |file| - At(text, k));
            ReadFrom(file, At(text, k), maxBytes) ==
                Segment(|file|, At(text, k), DecodeReplacing(file[At(text, k)..][..w]), w)
  {
    hide Encode, EncodeChar, Trimmed, DecodeReplacing;
    FrontChar(text, k);
    var n := Least(maxBytes, |Encode(text)| - At(text, k));
    WindowTrims(text, k, n);
    assert Fits(text, k, n) == k;
  }

  lemma WindowText(text: seq<Scalar>, k: nat, j: nat)
    requires k <= j <= |text|
    ensures At(text, k) <= At(text, j) <= |Encode(text)|
    ensures DecodeReplacing(Encode(text)[At(text, k)..][..At(text, j) - At(text, k)]) == text[k..j]
  {
    hide Encode, DecodeReplacing, Decode;
    Between(text, k, j);
    var file, a, b := Encode(text), At(text, k), At(text, j);
    Slices(file, a, b - a, b - a);
    DecodeOfEncode(text[k..j]);
    ReplacingDecoded(file[a..b]);
    assert file[a..][..b - a] == file[a..b];
  }

  /**
   Exactly when a page that starts at a character ends at one: the budget holds
   that first character, or the four-byte window read instead happens to end at a
   character.  Then the page is the text between the two, and nothing is replaced.
   */
  lemma CleanPages(text: seq<Scalar>, k: nat, maxBytes: nat)
    requires k < |text| && 1 <= maxBytes
    ensures At(text, k) <= |Encode(text)|
    ensures var file := Encode(text);
            var page := ReadFrom(file, At(text, k), maxBytes);
            && (CharAt(text, k, page.start + page.consumed) <==>
                |EncodeChar(text[k])| <= maxBytes || CharAt(text, k, At(text, k) + Least(4, |file| - At(text, k))))
            && (forall j :: k <= j <= |text| && At(text, j) == page.start + page.consumed ==>
                page.content == text[k..j])
  {
    hide Encode, EncodeChar, ReadFrom, DecodeReplacing, At, Fits;
    FrontChar(text, k);
    var file := Encode(text);
    var page := ReadFrom(file, At(text, k), maxBytes);
    if |EncodeChar(text[k])| <= maxBytes {
      PageOfWholeChars(text, k, maxBytes);
      var j := Fits(text, k, Least(maxBytes, |file| - At(text, k)));
      assert At(text, j) == page.start + page.consumed;
      forall i | k <= i <= |text| && At(text, i) == page.start + page.consumed ensures i == j {
        SameOffsetSameChar(text, i, j);
      }
    } else {
      SmallBudget(text, k, maxBytes);
      forall j | k <= j <= |text| && At(text, j) == page.start + page.consumed ensures page.content == text[k..j] {
        WindowText(text, k, j);
      }
    }
  }

  // ------------------------------------------------------------------ all the pages

  lemma TrimmedTakes(data: seq<Byte>)
    ensures Trimmed(data).Some? ==> 0 < Trimmed(data).value.1 <= |data|
    decreases |data|
  {
    hide Decode;
    if data != [] && Decode(data).Bad? && Decode(data).unexpectedEnd { TrimmedTakes(data[..Decode(data).start]); }
  }

  /** Whatever the bytes and the budget, a page that does not start at the end takes something. */
  lemma Progress(file: seq<Byte>, offset: nat, maxBytes: nat)
    requires maxBytes >= 1
    ensures var page := Read(file, offset, maxBytes);
            && page.total == |file| && Least(offset, |file|) <= page.start && page.start + page.consumed <= |file|
            && (page.start < |file| ==> page.consumed > 0)
  {
    hide Trimmed;
    var start := Start(file, offset);
    TrimmedTakes(file[start..][..Least(maxBytes, |file| - start)]);
  }

  /** The byte budget of a request. */
  function MaxBytes(maxChars: int): (r: nat)
    ensures 1 <= r <= 200000 && (1 <= maxChars <= 200000 ==> r == maxChars)
  {
    var capped := if maxChars < 200000 then maxChars else 200000;
    if capped < 1 then 1 else capped
  }

  /**
   The text that a reader collects who follows each cursor from an offset on,
   asking for maxChars(i) on page i.  It comes to an end for any bytes whatever.
   */
  function Pages(file: seq<Byte>, offset: nat, maxChars: nat -> int, i: nat): seq<Scalar>
    decreases |file| - offset
  {
    var page := Read(file, offset, MaxBytes(maxChars(i)));
    var next := page.start + page.consumed;
    Progress(file, offset, MaxBytes(maxChars(i)));
    if next < page.total then page.content + Pages(file, next, maxChars, i + 1) else page.content
  }

  lemma {:induction false} PagesFrom(text: seq<Scalar>, k: nat, maxChars: nat -> int, i: nat)
    requires k <= |text| && forall n :: maxChars(n) >= 4
    ensures Pages(Encode(text), At(text, k), maxChars, i) == text[k..]
    decreases |text| - k
  {
    hide Encode, EncodeChar, ReadFrom, Skip;
    var file, n := Encode(text), MaxBytes(maxChars(i));
    AtSplits(text, k);
    StartsAt(text, k);
    Progress(file, At(text, k), n);
    if k == |text| {
      NothingLeft(file, n);
    } else {
      PageOfWholeChars(text, k, n);
      var j := Fits(text, k, Least(n, |file| - At(text, k)));
      assert Read(file, At(text, k), n) == Segment(|file|, At(text, k), text[k..j], At(text, j) - At(text, k));
      AtRises(text, k, j);
      if j < |text| {
        AtRises(text, j, |text|);
        AtSplits(text, |text|);
        PagesFrom(text, j, maxChars, i + 1);
        assert text[k..] == text[k..j] + text[j..];
      } else {
        AtSplits(text, |text|);
      }
    }
  }

  lemma NothingLeft(file: seq<Byte>, maxBytes: nat)
    ensures ReadFrom(file, |file|, maxBytes) == Segment(|file|, |file|, [], 0)
  {
  }

  lemma StartsAt(text: seq<Scalar>, k: nat)
    requires k <= |text|
    ensures Start(Encode(text), At(text, k)) == At(text, k)
  {
    hide Encode;
    AtSplits(text, k);
    AtSplits(text, 0);
    if At(text, k) > 0 {
      if k > 0 { AtRises(text, k - 1, k); }
      SkipFinds(text, At(text, k), k);
    }
  }

  /**
   For every text and any page sizes of at least four bytes, the pages that a
   reader collects by following the cursors are the text: nothing is split,
   replaced, repeated or lost.
   */
  lemma PagesAreTheText(text: seq<Scalar>, maxChars: nat -> int)
    requires forall n :: maxChars(n) >= 4
    ensures Pages(Encode(text), 0, maxChars, 0) == text
  {
    AtSplits(text, 0);
    PagesFrom(text, 0, maxChars, 0);
  }

  /** The same for every file that is well-formed UTF-8. */
  lemma PagesOfWellFormedFile(file: seq<Byte>, maxChars: nat -> int)
    requires Decode(file).Ok? && forall n :: maxChars(n) >= 4
    ensures Encode(Pages(file, 0, maxChars, 0)) == file
  {
    EncodeOfDecode(file);
    PagesAreTheText(Decode(file).text, maxChars);
  }

  /** With a budget of one byte the second character of this text is lost. */
  lemma SmallBudgetCuts()
    ensures Pages(Encode([0xE9, 0x4E2D]), 0, (n: nat) => 1, 0) == [0xE9, REPLACEMENT]
  {
    var file: seq<Byte> := [0xC3, 0xA9, 0xE4, 0xB8, 0xAD];
    assert Encode([0xE9, 0x4E2D]) == file by {
      assert [0xE9, 0x4E2D][1..] == [0x4E2D];
      assert EncodeChar(0xE9) == [0xC3, 0xA9] && EncodeChar(0x4E2D) == [0xE4, 0xB8, 0xAD];
      assert Encode([0x4E2D]) == EncodeChar(0x4E2D) + Encode([]);
    }
    assert file[0..][..1] == [0xC3];
    assert Decode([0xC3]) == Bad(0, 1, true);
    assert [0xC3][..0] == [];
    assert Trimmed([0xC3]) == None;
    var window: seq<Byte> := [0xC3, 0xA9, 0xE4, 0xB8];
    assert file[0..][..4] == window;
    assert window[2..] == [0xE4, 0xB8];
    assert DecodeReplacing(window) == [0xE9] + DecodeReplacing([0xE4, 0xB8]);
    assert Read(file, 0, 1) == Segment(5, 0, [0xE9, REPLACEMENT], 4);
    assert Skip(file, 5) == 5 && Skip(file, 4) == 5;
    assert file[5..][..Least(1, 0)] == [];
    assert Read(file, 4, 1) == Segment(5, 5, [], 0);
  }

  /**
   A page with malformed bytes takes its whole budget: the text before the first
   malformed place stands, that place becomes one replacement character, and decoding
   goes on behind it.
   */
  lemma MalformedPage(file: seq<Byte>, start: nat, maxBytes: nat, text: seq<Scalar>, rest: seq<Byte>)
    requires start <= |file| && file[start..][..Least(maxBytes, |file| - start)] == Encode(text) + rest
    requires rest != [] && Look(rest).Malformed?
    ensures ReadFrom(file, start, maxBytes) ==
            Segment(|file|, start, text + [REPLACEMENT] + DecodeReplacing(rest[Look(rest).length..]),
                    |Encode(text)| + |rest|)
  {
    hide Encode, Look;
    DecodeMalformed(text, rest);
    ReplacingKeepsText(text, rest);
    assert text + ([REPLACEMENT] + DecodeReplacing(rest[Look(rest).length..])) ==
           text + [REPLACEMENT] + DecodeReplacing(rest[Look(rest).length..]);
    hide Decode, DecodeReplacing;
  }

  // ------------------------------------------------------------------------ cursors

  const TAG: string := "out1_"

  datatype Request = Request(offset: int, cursor: Option<string>, maxChars: int)

  datatype Reply = InvalidCursor | NegativeOffset | Page(segment: Segment, truncated: bool, next: Option<string>)

  /** A page as the tool returns it, with the cursor of the next one while there is more. */
  function Output(file: seq<Byte>, r: Request): Reply {
    if r.cursor.Some? && Cursors.Decode(TAG, r.cursor.value).None? then InvalidCursor
    else
      var offset := if r.cursor.Some? then Cursors.Decode(TAG, r.cursor.value).value else r.offset;
      if offset < 0 then NegativeOffset
      else
        var segment := Read(file, offset, MaxBytes(r.maxChars));
        var next := segment.start + segment.consumed;
        Page(segment, next < segment.total, if next < segment.total then Some(Cursors.Encode(TAG, next)) else None)
  }

  /** A cursor as a page carries it: the tag and one to sixteen lower-case hexadecimal digits. */
  ghost predicate PageCursor(cursor: string) {
    exists digits: string ::
      && 1 <= |digits| <= 16 && cursor == "out1_" + digits
      && forall i :: 0 <= i < |digits| ==> digits[i] in "0123456789abcdef"
  }

  lemma PageCursors(cursor: string)
    ensures Cursors.Decode(TAG, cursor).Some? <==> PageCursor(cursor)
  {
    if Cursors.WellFormed(TAG, cursor) {
      var digits := cursor[5..];
      assert cursor == "out1_" + digits;
      forall i | 0 <= i < |digits| ensures digits[i] in "0123456789abcdef" {
        Cursors.HexChars(cursor[5 + i]);
      }
    }
    if PageCursor(cursor) {
      var digits: string :| && 1 <= |digits| <= 16 && cursor == "out1_" + digits
                            && forall i :: 0 <= i < |digits| ==> digits[i] in "0123456789abcdef";
      assert cursor[..5] == "out1_";
      forall i | 5 <= i < |cursor| ensures Cursors.IsHex(cursor[i]) {
        assert cursor[i] == digits[i - 5];
        Cursors.HexChars(cursor[i]);
      }
    }
  }

  /**
   What the tool answers: a cursor overrides the offset and is checked first; the
   budget is held between 1 and 200000 bytes; there is a next cursor exactly while
   bytes are left, and it names the place where the page ended.
   */
  lemma OutputAnswers(file: seq<Byte>, r: Request)
    requires |file| <= Cursors.Power16(Cursors.MAX_DIGITS)
    ensures var reply := Output(file, r);
            var budget := if r.maxChars < 1 then 1 else if r.maxChars < 200000 then r.maxChars else 200000;
            && (reply == InvalidCursor <==> r.cursor != None && !PageCursor(r.cursor.value))
            && (reply == NegativeOffset <==> r.cursor == None && r.offset < 0)
            && (reply.Page? ==>
                  && (r.cursor == None ==> reply.segment == Read(file, r.offset, budget))
                  && (r.cursor != None ==>
                        reply.segment == Read(file, Cursors.Decode(TAG, r.cursor.value).value, budget))
                  && var end := reply.segment.start + reply.segment.consumed;
                     && (reply.truncated <==> end < |file|) && (reply.next != None <==> end < |file|)
                     && (end < |file| ==>
                         PageCursor(reply.next.value) && Cursors.Decode(TAG, reply.next.value) == Some(end)))
  {
    hide Cursors.Decode, Cursors.Encode, Read, PageCursor;
    if r.cursor != None { PageCursors(r.cursor.value); }
    var reply := Output(file, r);
    if reply.Page? {
      var end := reply.segment.start + reply.segment.consumed;
      ReadTotal(file, if r.cursor != None then Cursors.Decode(TAG, r.cursor.value).value else r.offset,
                MaxBytes(r.maxChars));
      Cursors.RoundTrip(TAG, end);
      PageCursors(Cursors.Encode(TAG, end));
    }
  }

  lemma ReadTotal(file: seq<Byte>, offset: nat, maxBytes: nat)
    ensures Read(file, offset, maxBytes).total == |file|
  {
    hide Trimmed, DecodeReplacing, Start;
  }

  /** The cursor of a page leads to exactly where it ended, for every file of at most 16 to the 16 bytes. */
  lemma CursorContinues(file: seq<Byte>, r: Request, ignored: int, maxChars: int)
    requires |file| <= Cursors.Power16(Cursors.MAX_DIGITS)
    requires Output(file, r).Page? && Output(file, r).truncated
    ensures var page := Output(file, r);
            var following := Output(file, Request(ignored, page.next, maxChars));
            following.Page? && following.segment ==
                Read(file, page.segment.start + page.segment.consumed, MaxBytes(maxChars))
  {
    hide Read, Cursors.Decode, Cursors.Encode;
    var page := Output(file, r);
    var offset := if r.cursor.Some? then Cursors.Decode(TAG, r.cursor.value).value else r.offset;
    Progress(file, offset, MaxBytes(r.maxChars));
    Cursors.RoundTrip(TAG, page.segment.start + page.segment.consumed);
  }

  method ReadProcessOutput(file: seq<Byte>, r: Request) returns (reply: Reply)
    ensures reply == Output(file, r)
  {
    hide Read, Cursors.Decode, Cursors.Encode;
    var offset := r.offset;
    if r.cursor.Some? {
      var id := Cursors.Decode(TAG, r.cursor.value);
      if id.None? { return InvalidCursor; }
      offset := id.value;
    }
    if offset < 0 { return NegativeOffset; }
    var segment := ReadUtf8Bytes(file, offset, MaxBytes(r.maxChars));
    var next := segment.start + segment.consumed;
    var truncated := next < segment.total;
    reply := Page(segment, truncated, if truncated then Some(Cursors.Encode(TAG, next)) else None);
  }
}
