/**
 * `MyTextSplitter` (my_text_splitter.ts): a custom chunking policy that
 * splits on a fixed separator, drops empty fields and appends a fixed
 * suffix to every remaining field. There is no size bound and no overlap.
 */
module TextSplitter {
  import opened Wrappers
  import opened JsStrings

  /** The constructor's optional fields (`Partial<MyTextSplitterParams>`), reduced to the two it reads. */
  datatype Params = Params(separator: Option<String>, suffix: Option<String>)

  /** A splitter; both fields are read-only once it is built. */
  datatype MyTextSplitter = MyTextSplitter(separator: String, suffix: String)

  /** `v ?? ""` */
  function OrEmpty(v: Option<String>): String {
    if v.Some? then v.value else []
  }

  /** `new MyTextSplitter(fields)`: a field that is not given defaults to the empty string. */
  function Create(fields: Option<Params>): (splitter: MyTextSplitter)
    ensures fields.None? ==> splitter == MyTextSplitter("", "")
    ensures fields.Some? && fields.value.separator.Some? ==> splitter.separator == fields.value.separator.value
    ensures fields.Some? && fields.value.separator.None? ==> splitter.separator == ""
    ensures fields.Some? && fields.value.suffix.Some? ==> splitter.suffix == fields.value.suffix.value
    ensures fields.Some? && fields.value.suffix.None? ==> splitter.suffix == ""
  {
    match fields
    case None => MyTextSplitter(OrEmpty(None), OrEmpty(None))
    case Some(p) => MyTextSplitter(OrEmpty(p.separator), OrEmpty(p.suffix))
  }

  /** `fields.filter(line => line)`: the empty string is the only falsy string. */
  function NonEmpty(fields: seq<String>): (kept: seq<String>)
    decreases |fields|
    ensures |kept| <= |fields|
    ensures forall f :: f in kept <==> f in fields && f != []
  {
    if fields == [] then []
    else
      assert fields == [fields[0]] + fields[1..];
      (if fields[0] == [] then [] else [fields[0]]) + NonEmpty(fields[1..])
  }

  /** Filtering keeps the order: it distributes over concatenation. */
  lemma {:induction false} NonEmptyAppend(a: seq<String>, b: seq<String>)
    ensures NonEmpty(a + b) == NonEmpty(a) + NonEmpty(b)
    decreases |a|
  {
    if a != [] {
      assert (a + b)[1..] == a[1..] + b;
      NonEmptyAppend(a[1..], b);
    } else {
      assert a + b == b;
    }
  }

  /** Filtering a sequence without empty strings leaves it unchanged. */
  lemma {:induction false} NonEmptyKeepsAll(fields: seq<String>)
    requires forall k :: 0 <= k < |fields| ==> fields[k] != []
    ensures NonEmpty(fields) == fields
    decreases |fields|
  {
    if fields != [] {
      NonEmptyKeepsAll(fields[1..]);
    }
  }

  /** `.map(line => line + suffix)` */
  function WithSuffix(kept: seq<String>, suffix: String): seq<String> {
    seq(|kept|, k requires 0 <= k < |kept| => kept[k] + suffix)
  }

  /** Appending the suffix distributes over concatenation. */
  lemma WithSuffixAppend(a: seq<String>, b: seq<String>, suffix: String)
    ensures WithSuffix(a + b, suffix) == WithSuffix(a, suffix) + WithSuffix(b, suffix)
  {
  }

  /** `splitter.splitText(text)`, once its promise is resolved. */
  function SplitText(splitter: MyTextSplitter, text: String): (pieces: seq<String>)
    ensures forall k :: 0 <= k < |pieces| ==>
      |pieces[k]| > |splitter.suffix| && pieces[k][|pieces[k]| - |splitter.suffix|..] == splitter.suffix
  {
    var kept := NonEmpty(Split(text, splitter.separator));
    assert forall k :: 0 <= k < |kept| ==> kept[k] in kept;
    WithSuffix(kept, splitter.suffix)
  }

  /** A piece without its suffix. */
  function Unsuffixed(piece: String, suffix: String): String
    requires |piece| >= |suffix|
  {
    piece[..|piece| - |suffix|]
  }

  /**
   * The pieces, with the suffix removed, are the non-empty fields of the text,
   * in order and each as often as it occurs: each is one of the fields, and
   * every non-empty field is among them.
   * A non-empty separator occurs in none of them, and joining all the fields,
   * empty ones included, with the separator gives back the text.
   */
  lemma SplitTextFields(splitter: MyTextSplitter, text: String)
    ensures var fields, pieces := Split(text, splitter.separator), SplitText(splitter, text);
      && Join(fields, splitter.separator) == text
      && seq(|pieces|, k requires 0 <= k < |pieces| => Unsuffixed(pieces[k], splitter.suffix)) == NonEmpty(fields)
      && (forall k :: 0 <= k < |pieces| ==> Unsuffixed(pieces[k], splitter.suffix) in fields)
      && (forall j :: 0 <= j < |fields| && fields[j] != [] ==>
            exists k :: 0 <= k < |pieces| && Unsuffixed(pieces[k], splitter.suffix) == fields[j])
      && (splitter.separator != [] ==>
            forall k :: 0 <= k < |pieces| ==> !Contains(Unsuffixed(pieces[k], splitter.suffix), splitter.separator))
  {
    var fields, pieces := Split(text, splitter.separator), SplitText(splitter, text);
    var kept := NonEmpty(fields);
    assert |pieces| == |kept|;
    forall k | 0 <= k < |pieces|
      ensures Unsuffixed(pieces[k], splitter.suffix) == kept[k] && kept[k] in fields
    {
      assert pieces[k] == kept[k] + splitter.suffix;
      assert kept[k] in kept;
    }
    forall j | 0 <= j < |fields| && fields[j] != []
      ensures exists k :: 0 <= k < |pieces| && Unsuffixed(pieces[k], splitter.suffix) == fields[j]
    {
      assert fields[j] in fields;
      var k :| 0 <= k < |kept| && kept[k] == fields[j];
      assert Unsuffixed(pieces[k], splitter.suffix) == fields[j];
    }
    if splitter.separator != [] {
      forall k | 0 <= k < |pieces|
        ensures !Contains(Unsuffixed(pieces[k], splitter.suffix), splitter.separator)
      {
        var j :| 0 <= j < |fields| && fields[j] == kept[k];
      }
    }
  }

  /**
   * There are at most as many pieces as separator occurrences plus one,
   * and the empty text gives no piece at all.
   */
  lemma SplitTextCount(splitter: MyTextSplitter, text: String)
    ensures splitter.separator != [] ==>
      |SplitText(splitter, text)| <= Occurrences(text, splitter.separator) + 1
    ensures text == [] ==> SplitText(splitter, text) == []
  {
    if splitter.separator != [] {
      SplitOnCount(text, splitter.separator);
      if text == [] {
        assert FindFrom(text, splitter.separator, 0) == None;
        assert Split(text, splitter.separator) == [[]];
      }
    }
  }

  /** With the default separator `""`, every piece is one character of the text followed by the suffix. */
  lemma SplitTextDefaultSeparator(splitter: MyTextSplitter, text: String)
    requires splitter.separator == []
    ensures |SplitText(splitter, text)| == |text|
    ensures forall k :: 0 <= k < |text| ==> SplitText(splitter, text)[k] == [text[k]] + splitter.suffix
  {
    NonEmptyKeepsAll(Split(text, []));
  }

  /** With the default suffix `""`, the pieces are the non-empty fields unchanged. */
  lemma SplitTextDefaultSuffix(splitter: MyTextSplitter, text: String)
    requires splitter.suffix == []
    ensures SplitText(splitter, text) == NonEmpty(Split(text, splitter.separator))
  {
    var kept := NonEmpty(Split(text, splitter.separator));
    assert forall k :: 0 <= k < |kept| ==> kept[k] + [] == kept[k];
  }

  /**
   * For a one-character separator, splitting distributes over a separator
   * occurrence: the pieces of the left part come first, in order, and the
   * empty fields that leading, trailing or doubled separators make are dropped.
   */
  lemma SplitTextDistributes(splitter: MyTextSplitter, a: String, b: String)
    requires |splitter.separator| == 1
    ensures SplitText(splitter, a + splitter.separator + b)
         == SplitText(splitter, a) + SplitText(splitter, b)
  {
    var c := splitter.separator[0];
    assert splitter.separator == [c];
    var fa, fb := Split(a, [c]), Split(b, [c]);
    SplitOnCharDistributes(a, c, b);
    assert Split(a + [c] + b, [c]) == fa + fb;
    NonEmptyAppend(fa, fb);
    WithSuffixAppend(NonEmpty(fa), NonEmpty(fb), splitter.suffix);
  }

  /** The four-sentence example text, written sentence by sentence. */
  const Sentences: String :=
    "吾輩は猫である。" + "名前はまだない。" + "どこで生れたか頓と見当がつかぬ。"
    + "何でも薄暗いじめじめした所でニャーニャー泣いていた事だけは記憶している。"

  /** Four separator-terminated sentences are the join of the sentences and a trailing empty field. */
  lemma JoinFourTerminated(s1: String, s2: String, s3: String, s4: String, c: char)
    ensures Join([s1, s2, s3, s4, []], [c]) == (s1 + [c]) + (s2 + [c]) + (s3 + [c]) + (s4 + [c])
  {
    assert [s4, []][1..] == [[]];
    assert Join([s4, []], [c]) == s4 + [c] by {
      assert Join([s4, []], [c]) == s4 + [c] + [];
    }
    assert [s3, s4, []][1..] == [s4, []];
    assert Join([s3, s4, []], [c]) == (s3 + [c]) + (s4 + [c]);
    assert [s2, s3, s4, []][1..] == [s3, s4, []];
    assert Join([s2, s3, s4, []], [c]) == (s2 + [c]) + (s3 + [c]) + (s4 + [c]);
    assert [s1, s2, s3, s4, []][1..] == [s2, s3, s4, []];
  }

  /** The example text's fields: its four sentences and the empty field after the last "。". */
  lemma SentencesFields()
    ensures Split(Sentences, "。") == ["吾輩は猫である", "名前はまだない", "どこで生れたか頓と見当がつかぬ",
      "何でも薄暗いじめじめした所でニャーニャー泣いていた事だけは記憶している", ""]
  {
    var s1, s2, s3 := "吾輩は猫である", "名前はまだない", "どこで生れたか頓と見当がつかぬ";
    var s4 := "何でも薄暗いじめじめした所でニャーニャー泣いていた事だけは記憶している";
    var c := '。';
    assert c !in s1 && c !in s2 && c !in s3;
    assert c !in s4;
    assert Sentences == (s1 + [c]) + (s2 + [c]) + (s3 + [c]) + (s4 + [c]) by {
      assert "吾輩は猫である。" == s1 + [c];
      assert "名前はまだない。" == s2 + [c];
      assert "どこで生れたか頓と見当がつかぬ。" == s3 + [c];
      assert "何でも薄暗いじめじめした所でニャーニャー泣いていた事だけは記憶している。" == s4 + [c];
    }
    JoinFourTerminated(s1, s2, s3, s4, c);
    SplitOnCharUnique([s1, s2, s3, s4, []], c);
  }

  /** The example text split on "。" with the suffix "にゃ": four pieces, one per sentence. */
  lemma SplitTextSentences()
    ensures SplitText(Create(Some(Params(Some("。"), Some("にゃ")))), Sentences)
         == ["吾輩は猫であるにゃ", "名前はまだないにゃ", "どこで生れたか頓と見当がつかぬにゃ",
             "何でも薄暗いじめじめした所でニャーニャー泣いていた事だけは記憶しているにゃ"]
  {
    SentencesFields();
    var parts := Split(Sentences, "。");
    NonEmptyKeepsAll(parts[..4]);
    NonEmptyAppend(parts[..4], [[]]);
    assert parts == parts[..4] + [[]];
    assert NonEmpty([[]]) == [] by {
      assert NonEmpty([[]]) == [] + NonEmpty([[]][1..]);
    }
    assert NonEmpty(parts) == parts[..4];
    assert Create(Some(Params(Some("。"), Some("にゃ")))) == MyTextSplitter("。", "にゃ");
    var pieces := WithSuffix(parts[..4], "にゃ");
    assert |pieces| == 4;
    assert pieces[0] == "吾輩は猫であるにゃ";
    assert pieces[1] == "名前はまだないにゃ";
    assert pieces[2] == "どこで生れたか頓と見当がつかぬにゃ";
    assert pieces[3] == "何でも薄暗いじめじめした所でニャーニャー泣いていた事だけは記憶しているにゃ";
  }
}
