/**
  The two input forms. `PostForm` edits the fields `text`, `group` and
  `image` of a post; its `clean_text` rule rejects a text whose lower-cased
  form contains the word "блин". `CommentForm` has the single field `text`.
  A text field is cleaned as the framework's character field does it:
  surrounding whitespace is stripped, an empty result is "required", and a
  text holding the null character is refused.
*/
module Forms {
  import opened Wrappers
  import opened Models

  const ForbiddenWord: string := "блин"
  const ForbiddenMessage: string := "Вы имели в виду \"блинчик\" \U{1F95E}?"

  /** The message of the character field's validator that refuses the null character. */
  const NullCharacterMessage: string := "Null characters are not allowed."

  datatype ValidationError = ValidationError(message: string)

  datatype FormError =
    | Required(field: string)
    | Rejected(field: string, error: ValidationError)
    | InvalidChoice(field: string)

  /**
    What a post form is bound to: exactly the fields `PostForm` exposes
    (`text`, `group`, `image`), so the author, the id and the publication
    time never come from the form.
  */
  datatype PostInput = PostInput(text: string, group: Option<nat>, image: Option<Image>)

  // ---------------------------------------------------------------------------
  // Case mapping, restricted to the Latin and Cyrillic letters

  /** Lower-case mapping of `str.lower` for A-Z, А-Я and Ѐ-Џ; every other character is kept. */
  function LowerChar(c: char): char
  {
    if 'A' <= c <= 'Z' then (c as int + 32) as char
    else if 'А' <= c <= 'Я' then (c as int + 32) as char
    else if 'Ѐ' <= c <= 'Џ' then (c as int + 80) as char
    else c
  }

  /** Upper-case mapping for a-z, а-я and ѐ-џ; every other character is kept. */
  function UpperChar(c: char): char
  {
    if 'a' <= c <= 'z' then (c as int - 32) as char
    else if 'а' <= c <= 'я' then (c as int - 32) as char
    else if 'ѐ' <= c <= 'џ' then (c as int - 80) as char
    else c
  }

  function Lower(s: string): string
  {
    seq(|s|, i requires 0 <= i < |s| => LowerChar(s[i]))
  }

  function Upper(s: string): string
  {
    seq(|s|, i requires 0 <= i < |s| => UpperChar(s[i]))
  }

  /** Lower-casing an upper-cased character gives the lower-cased character. */
  lemma LowerOfUpper(c: char)
    ensures LowerChar(UpperChar(c)) == LowerChar(c)
  {
  }

  // ---------------------------------------------------------------------------
  // Substring test (`sub in s`)

  predicate Contains(s: string, sub: string)
    decreases |s|
  {
    |sub| <= |s| && (s[..|sub|] == sub || Contains(s[1..], sub))
  }

  /** `sub` occurs in `s` starting at position `i`. */
  predicate OccursAt(s: string, sub: string, i: int)
  {
    0 <= i && i + |sub| <= |s| && s[i..i + |sub|] == sub
  }

  /** `Contains` holds exactly when `sub` occurs at some position of `s`. */
  lemma {:induction false} ContainsIff(s: string, sub: string)
    ensures Contains(s, sub) <==> exists i :: OccursAt(s, sub, i)
  {
    if s == [] {
      if sub == [] {
        assert OccursAt(s, sub, 0);
      }
    } else if |sub| <= |s| {
      ContainsIff(s[1..], sub);
      if Contains(s, sub) {
        if s[..|sub|] == sub {
          assert OccursAt(s, sub, 0);
        } else {
          var i :| OccursAt(s[1..], sub, i);
          assert s[i + 1..i + 1 + |sub|] == s[1..][i..i + |sub|];
          assert OccursAt(s, sub, i + 1);
        }
      }
      if exists i :: OccursAt(s, sub, i) {
        var i :| OccursAt(s, sub, i);
        if i > 0 {
          assert s[1..][i - 1..i - 1 + |sub|] == s[i..i + |sub|];
          assert OccursAt(s[1..], sub, i - 1);
        }
      }
    }
  }

  /** Character `m` of an occurrence at `k` is character `k + m` of the text. */
  lemma OccursAtIndex(s: string, w: string, k: int, m: nat)
    requires OccursAt(s, w, k) && m < |w|
    ensures s[k + m] == w[m]
  {
    assert s[k..k + |w|][m] == s[k + m];
  }

  /** An occurrence that lies inside the slice `s[i..j]` is an occurrence in that slice. */
  lemma OccursInSlice(s: string, w: string, i: nat, j: nat, k: nat)
    requires i <= k && k + |w| <= j <= |s|
    requires OccursAt(s, w, k)
    ensures OccursAt(s[i..j], w, k - i)
  {
    var t := s[i..j][k - i..k - i + |w|];
    forall m | 0 <= m < |w| ensures t[m] == w[m] {
      assert s[k..k + |w|][m] == w[m];
    }
    assert t == w;
  }

  lemma LowerSlice(s: string, i: nat, j: nat)
    requires i <= j <= |s|
    ensures Lower(s)[i..j] == Lower(s[i..j])
  {
  }

  // ---------------------------------------------------------------------------
  // clean_text

  /** `PostForm.clean_text`: the forbidden word, in any case, is rejected; any other text is kept. */
  function CleanText(data: string): (r: Result<string, ValidationError>)
    ensures r.Ok? ==> r.value == data
    ensures r.Err? ==> r.error == ValidationError(ForbiddenMessage)
  {
    if Contains(Lower(data), ForbiddenWord) then Err(ValidationError(ForbiddenMessage)) else Ok(data)
  }

  /** Some window of `data` starting at `i` lower-cases to `w`. */
  predicate LowersTo(data: string, i: int, w: string)
  {
    0 <= i && i + |w| <= |data| && Lower(data[i..i + |w|]) == w
  }

  /** The text is rejected exactly when some window of it lower-cases to the forbidden word. */
  lemma CleanTextRejectsWindow(data: string)
    ensures CleanText(data).Err? <==> exists i :: LowersTo(data, i, ForbiddenWord)
  {
    var n := |ForbiddenWord|;
    ContainsIff(Lower(data), ForbiddenWord);
    if CleanText(data).Err? {
      var i :| OccursAt(Lower(data), ForbiddenWord, i);
      LowerSlice(data, i, i + n);
      assert LowersTo(data, i, ForbiddenWord);
    }
    if exists i :: LowersTo(data, i, ForbiddenWord) {
      var i :| LowersTo(data, i, ForbiddenWord);
      LowerSlice(data, i, i + n);
      assert OccursAt(Lower(data), ForbiddenWord, i);
    }
  }

  /** `s` spells `w` with each letter either as in `w` or upper-cased. */
  predicate CasingOf(s: string, w: string)
  {
    |s| == |w| && forall i :: 0 <= i < |w| ==> s[i] == w[i] || s[i] == UpperChar(w[i])
  }

  /** Every casing of the forbidden word ("блин", "БЛИН", "бЛиН", ...) is rejected wherever it occurs. */
  lemma AnyCasingRejected(data: string, s: string)
    requires CasingOf(s, ForbiddenWord)
    requires Contains(data, s)
    ensures CleanText(data).Err?
  {
    ContainsIff(data, s);
    var i :| OccursAt(data, s, i);
    assert Lower(s) == ForbiddenWord by {
      forall k | 0 <= k < |s| ensures LowerChar(s[k]) == ForbiddenWord[k] {
        assert 'а' <= ForbiddenWord[k] <= 'я';
      }
    }
    assert LowersTo(data, i, ForbiddenWord);
    CleanTextRejectsWindow(data);
  }

  /** Upper-casing a text never changes whether it is rejected. */
  lemma UpperKeepsVerdict(data: string)
    ensures CleanText(Upper(data)).Err? == CleanText(data).Err?
  {
    assert Lower(Upper(data)) == Lower(data) by {
      forall k | 0 <= k < |data| ensures Lower(Upper(data))[k] == Lower(data)[k] {
        LowerOfUpper(data[k]);
      }
    }
  }

  // ---------------------------------------------------------------------------
  // Whitespace stripping (`str.strip()`)

  /** The characters `str.isspace` accepts. */
  predicate IsSpace(c: char)
  {
    ('\U{0009}' <= c <= '\U{000D}') || ('\U{001C}' <= c <= '\U{0020}') ||
    c == '\U{0085}' || c == '\U{00A0}' || c == '\U{1680}' ||
    ('\U{2000}' <= c <= '\U{200A}') || c == '\U{2028}' || c == '\U{2029}' ||
    c == '\U{202F}' || c == '\U{205F}' || c == '\U{3000}'
  }

  function StripLeft(s: string): (r: string)
    ensures |r| <= |s| && r == s[|s| - |r|..]
    ensures forall k :: 0 <= k < |s| - |r| ==> IsSpace(s[k])
    ensures r == [] || !IsSpace(r[0])
  {
    if s != [] && IsSpace(s[0]) then StripLeft(s[1..]) else s
  }

  function StripRight(s: string): (r: string)
    ensures |r| <= |s| && r == s[..|r|]
    ensures forall k :: |r| <= k < |s| ==> IsSpace(s[k])
    ensures r == [] || !IsSpace(r[|r| - 1])
  {
    if s != [] && IsSpace(s[|s| - 1]) then StripRight(s[..|s| - 1]) else s
  }

  /** `s` without its leading and trailing whitespace. */
  function Strip(s: string): (r: string)
    ensures exists i, j ::
      && 0 <= i <= j <= |s| && r == s[i..j]
      && (forall k :: 0 <= k < i ==> IsSpace(s[k]))
      && (forall k :: j <= k < |s| ==> IsSpace(s[k]))
    ensures r == [] || (!IsSpace(r[0]) && !IsSpace(r[|r| - 1]))
  {
    var w := StripLeft(s);
    var r := StripRight(w);
    var i := |s| - |w|;
    assert r == s[i..i + |r|];
    r
  }

  /** Where `Strip` cuts: the kept slice `s[i..j]`, with only whitespace before `i` and from `j` on. */
  lemma StripBounds(s: string) returns (i: nat, j: nat)
    ensures i <= j <= |s| && Strip(s) == s[i..j]
    ensures forall k :: 0 <= k < i ==> IsSpace(s[k])
    ensures forall k :: j <= k < |s| ==> IsSpace(s[k])
  {
    var w := StripLeft(s);
    i := |s| - |w|;
    j := i + |StripRight(w)|;
    forall k | j <= k < |s| ensures IsSpace(s[k]) {
      assert s[k] == w[k - i];
    }
  }

  /** A character that is not whitespace is in `s` exactly when it is in a slice of `s` that cuts only whitespace. */
  lemma CharInsideMargins(s: string, c: char, i: nat, j: nat)
    requires !IsSpace(c)
    requires i <= j <= |s|
    requires forall k :: 0 <= k < i ==> IsSpace(s[k])
    requires forall k :: j <= k < |s| ==> IsSpace(s[k])
    ensures c in s[i..j] <==> c in s
  {
    if c in s {
      var k :| 0 <= k < |s| && s[k] == c;
      assert s[i..j][k - i] == c;
    }
  }

  /** Stripping only removes whitespace: a character that is not whitespace is in the stripped text exactly when it is in the text. */
  lemma StripKeepsNonSpace(s: string, c: char)
    requires !IsSpace(c)
    ensures c in Strip(s) <==> c in s
  {
    var i, j := StripBounds(s);
    CharInsideMargins(s, c, i, j);
  }

  /** A word that neither starts nor ends with whitespace, found in `s`, is found in any slice of `s` that cuts only whitespace. */
  lemma WordInsideMargins(s: string, w: string, i: nat, j: nat)
    requires w != [] && !IsSpace(w[0]) && !IsSpace(w[|w| - 1])
    requires Contains(s, w)
    requires i <= j <= |s|
    requires forall k :: 0 <= k < i ==> IsSpace(s[k])
    requires forall k :: j <= k < |s| ==> IsSpace(s[k])
    ensures Contains(s[i..j], w)
  {
    ContainsIff(s, w);
    var k :| OccursAt(s, w, k);
    OccursAtIndex(s, w, k, 0);
    OccursAtIndex(s, w, k, |w| - 1);
    OccursInSlice(s, w, i, j, k);
    ContainsIff(s[i..j], w);
  }

  /** Such a word still occurs in a text once the text is stripped. */
  lemma StripKeepsWord(s: string, w: string)
    requires w != [] && !IsSpace(w[0]) && !IsSpace(w[|w| - 1])
    requires Contains(s, w)
    ensures Contains(Strip(s), w)
  {
    var i, j := StripBounds(s);
    WordInsideMargins(s, w, i, j);
  }

  // ---------------------------------------------------------------------------
  // Form validation

  /** The `text` field of either form: stripped, then required, then refused if it holds the null character. */
  function CleanTextField(text: string): (r: Result<string, FormError>)
    ensures r.Ok? <==> Strip(text) != [] && '\0' !in text
    ensures r.Ok? ==> r.value == Strip(text)
    ensures r.Err? ==>
      r.error == (if Strip(text) == [] then Required("text") else Rejected("text", ValidationError(NullCharacterMessage)))
  {
    var t := Strip(text);
    StripKeepsNonSpace(text, '\0');
    if t == [] then Err(Required("text"))
    else if '\0' in t then Err(Rejected("text", ValidationError(NullCharacterMessage)))
    else Ok(t)
  }

  /**
    `PostForm.is_valid()` and its cleaned data: `text` is required and must
    pass `clean_text`; `group` may be blank but otherwise names an existing
    group; `image` may be blank.
  */
  function PostFormClean(input: PostInput, groupIds: set<nat>): (r: Result<PostInput, seq<FormError>>)
    ensures r.Ok? <==>
      Strip(input.text) != [] && '\0' !in input.text && CleanText(Strip(input.text)).Ok? &&
      (input.group.Some? ==> input.group.value in groupIds)
    ensures r.Ok? ==> r.value == PostInput(Strip(input.text), input.group, input.image)
    ensures r.Err? ==> r.error != []
  {
    var textErrors :=
      match CleanTextField(input.text)
      case Err(e) => [e]
      case Ok(t) => (match CleanText(t) case Ok(_) => [] case Err(v) => [Rejected("text", v)]);
    var groupErrors :=
      if input.group.Some? && input.group.value !in groupIds then [InvalidChoice("group")] else [];
    if textErrors + groupErrors == [] then Ok(PostInput(Strip(input.text), input.group, input.image))
    else Err(textErrors + groupErrors)
  }

  /** `CommentForm.is_valid()` and its cleaned text: only the character field's own rules apply, no word is forbidden. */
  function CommentFormClean(text: string): (r: Result<string, seq<FormError>>)
    ensures r.Ok? <==> Strip(text) != [] && '\0' !in text
    ensures r.Ok? ==> r.value == Strip(text)
    ensures r.Err? ==>
      r.error == [if Strip(text) == [] then Required("text") else Rejected("text", ValidationError(NullCharacterMessage))]
  {
    match CleanTextField(text)
    case Ok(t) => Ok(t)
    case Err(e) => Err([e])
  }

  /** Only `text` is required: a post form with no group and no image is valid when its text is. */
  lemma OnlyTextRequired(text: string, groupIds: set<nat>)
    ensures PostFormClean(PostInput(text, None, None), groupIds).Ok? <==>
      Strip(text) != [] && '\0' !in text && !Contains(Lower(Strip(text)), ForbiddenWord)
  {
  }

  /**
    A post text with the forbidden word in any casing never passes the post
    form; unless the text already fails the character field's own rules, the
    error is the forbidden-word rejection.
  */
  lemma ForbiddenTextFails(input: PostInput, groupIds: set<nat>, s: string)
    requires CasingOf(s, ForbiddenWord)
    requires Contains(input.text, s)
    ensures PostFormClean(input, groupIds).Err?
    ensures '\0' !in input.text ==>
      Rejected("text", ValidationError(ForbiddenMessage)) in PostFormClean(input, groupIds).error
  {
    assert !IsSpace(s[0]) && !IsSpace(s[|s| - 1]) by {
      assert s[0] == 'б' || s[0] == 'Б';
      assert s[3] == 'н' || s[3] == 'Н';
    }
    StripKeepsWord(input.text, s);
    AnyCasingRejected(Strip(input.text), s);
    assert Strip(input.text) != [] by {
      ContainsIff(Strip(input.text), s);
    }
  }
}
