/**
  Storage-key generation (`generateFileName`). The clock reading and the random
  token are parameters: `timestamp` is `Date.now()` in milliseconds and `token`
  stands for `Math.random().toString(36).substring(2, 15)`.
 */
module FileKeys {
  import opened Text

  /** `s.replace(/[^a-zA-Z0-9]/g, '-')`: every character outside ASCII letters and digits becomes `-`. */
  function Sanitize(s: string): (r: string)
    ensures |r| == |s|
    ensures forall i :: 0 <= i < |s| && IsAsciiAlnum(s[i]) ==> r[i] == s[i]
    ensures forall i :: 0 <= i < |s| && !IsAsciiAlnum(s[i]) ==> r[i] == '-'
    decreases |s|
  {
    if |s| == 0 then ""
    else [if IsAsciiAlnum(s[0]) then s[0] else '-'] + Sanitize(s[1..])
  }

  /** Characters a sanitised base name may contain. */
  predicate IsKeyChar(ch: char) {
    IsAsciiAlnum(ch) || ch == '-'
  }

  /** A sanitised name holds only ASCII letters, digits and `-`, and sanitising it again changes nothing. */
  lemma SanitizeClean(s: string)
    ensures forall i :: 0 <= i < |Sanitize(s)| ==> IsKeyChar(Sanitize(s)[i])
    ensures Sanitize(Sanitize(s)) == Sanitize(s)
  {
  }

  /** The base of the key: the text before the first `.` of the original name, sanitised. */
  function BaseName(originalName: string): string {
    Sanitize(FirstSegment(originalName, '.'))
  }

  /** The extension of the key: `originalName.split('.').pop()`. */
  function Extension(originalName: string): string {
    LastSegment(originalName, '.')
  }

  /**
    `generateFileName(originalName, folder)` with the clock and the random
    token supplied. The key opens with `folder + "/"` and closes with `.`
    and the original name's extension.
   */
  function GenerateFileName(originalName: string, folder: string, timestamp: nat, token: string): (key: string)
    ensures StartsWith(key, folder + "/")
    ensures var tail := "." + Extension(originalName);
      |tail| <= |key| && key[|key| - |tail|..] == tail
  {
    var filename := BaseName(originalName) + "-" + Decimal(timestamp) + "-" + token + "." + Extension(originalName);
    var key := folder + "/" + filename;
    assert key == (folder + "/") + filename;
    assert key == KeyFront(originalName, folder, timestamp, token) + ("." + Extension(originalName));
    key
  }

  /**
    The parts of a key: everything up to the `.` that precedes the extension.
    Kept separate so lemmas can speak of `front + "." + ext`.
   */
  function KeyFront(originalName: string, folder: string, timestamp: nat, token: string): string {
    folder + "/" + BaseName(originalName) + "-" + Decimal(timestamp) + "-" + token
  }

  /** A key begins with its folder followed by `/`. */
  lemma KeyStartsWithFolder(originalName: string, folder: string, timestamp: nat, token: string)
    ensures StartsWith(GenerateFileName(originalName, folder, timestamp, token), folder + "/")
  {
    var key := GenerateFileName(originalName, folder, timestamp, token);
    assert key == (folder + "/") + (BaseName(originalName) + "-" + Decimal(timestamp) + "-" + token + "." + Extension(originalName));
  }

  /**
    The extension is the text after the last `.` of the original name: the
    whole name when it has no `.`; otherwise the name is `front + "." + ext`.
    It never contains a `.`.
   */
  lemma ExtensionShape(originalName: string)
    ensures '.' !in Extension(originalName)
    ensures '.' !in originalName ==> Extension(originalName) == originalName
    ensures '.' in originalName ==> exists front :: originalName == front + "." + Extension(originalName)
  {
    LastSegmentShape(originalName, '.');
  }

  /** Whatever precedes the last `.`, the extension is exactly the `.`-free text after it. */
  lemma ExtensionOfSplit(front: string, ext: string)
    requires '.' !in ext
    ensures Extension(front + "." + ext) == ext
  {
    LastSegmentAfter(front, ext, '.');
  }

  /**
    The base is as long as the text before the first `.` of the name, holds
    only ASCII letters, digits and `-`, and keeps that text's letters and
    digits where they were.
   */
  lemma BaseNameShape(originalName: string)
    ensures var head := FirstSegment(originalName, '.');
      && |BaseName(originalName)| == |head|
      && (forall i :: 0 <= i < |head| && IsAsciiAlnum(head[i]) ==> BaseName(originalName)[i] == head[i])
      && (forall i :: 0 <= i < |BaseName(originalName)| ==> IsKeyChar(BaseName(originalName)[i]))
    ensures '.' !in originalName ==> BaseName(originalName) == Sanitize(originalName)
    ensures '.' in originalName ==> exists rest :: originalName == FirstSegment(originalName, '.') + "." + rest
  {
    FirstSegmentShape(originalName, '.');
    SanitizeClean(FirstSegment(originalName, '.'));
  }

  /**
    The extension survives into the key: the text after the key's last `.`
    is the extension of the original name, so reading the key back gives it.
   */
  lemma KeyKeepsExtension(originalName: string, folder: string, timestamp: nat, token: string)
    ensures LastSegment(GenerateFileName(originalName, folder, timestamp, token), '.') == Extension(originalName)
  {
    var key := GenerateFileName(originalName, folder, timestamp, token);
    ExtensionShape(originalName);
    KeyAsParts(originalName, folder, timestamp, token);
    LastSegmentAfter(KeyFront(originalName, folder, timestamp, token), Extension(originalName), '.');
  }

  /**
    The folder survives into the key: when the folder has no `/`, the key's
    first `/`-segment is the folder, which is how a replace infers it.
   */
  lemma KeyKeepsFolder(originalName: string, folder: string, timestamp: nat, token: string)
    requires '/' !in folder
    ensures FirstSegment(GenerateFileName(originalName, folder, timestamp, token), '/') == folder
  {
    var key := GenerateFileName(originalName, folder, timestamp, token);
    var back := BaseName(originalName) + "-" + Decimal(timestamp) + "-" + token + "." + Extension(originalName);
    assert key == folder + ['/'] + back;
    FirstSegmentBefore(folder, back, '/');
  }

  /**
    For one original name and folder, the key determines the clock reading
    and the token it was made from: uploads of the same file collide only
    if both the millisecond and the random token coincide.
   */
  lemma KeyDeterminesClockAndToken(originalName: string, folder: string, t1: nat, t2: nat, token1: string, token2: string)
    requires GenerateFileName(originalName, folder, t1, token1) == GenerateFileName(originalName, folder, t2, token2)
    ensures t1 == t2 && token1 == token2
  {
    var e := "." + Extension(originalName);
    KeyTailsAgree(originalName, folder, t1, t2, token1, token2);
    StampAndTokenDecode(t1, t2, token1, token2, e);
  }

  /** Two keys for one name and folder agree exactly when their parts after the base name agree. */
  lemma KeyTailsAgree(originalName: string, folder: string, t1: nat, t2: nat, token1: string, token2: string)
    requires GenerateFileName(originalName, folder, t1, token1) == GenerateFileName(originalName, folder, t2, token2)
    ensures var e := "." + Extension(originalName);
      Decimal(t1) + ['-'] + (token1 + e) == Decimal(t2) + ['-'] + (token2 + e)
  {
    var e := "." + Extension(originalName);
    KeyAsParts(originalName, folder, t1, token1);
    KeyAsParts(originalName, folder, t2, token2);
    CommonPrefix(folder + "/" + BaseName(originalName) + "-", Decimal(t1) + ['-'] + (token1 + e), Decimal(t2) + ['-'] + (token2 + e));
  }

  /** A key is the fixed front for its name and folder, then the clock digits, `-`, the token and the extension. */
  lemma KeyAsParts(originalName: string, folder: string, t: nat, token: string)
    ensures GenerateFileName(originalName, folder, t, token) ==
      (folder + "/" + BaseName(originalName) + "-") + (Decimal(t) + ['-'] + (token + ("." + Extension(originalName))))
    ensures GenerateFileName(originalName, folder, t, token) ==
      KeyFront(originalName, folder, t, token) + ['.'] + Extension(originalName)
  {
    var p, b, d, e := folder + "/", BaseName(originalName), Decimal(t), Extension(originalName);
    var f1 := b + "-";
    var f2 := f1 + d;
    var f3 := f2 + "-";
    var f4 := f3 + token;
    var f5 := f4 + ".";
    assert GenerateFileName(originalName, folder, t, token) == p + (f5 + e);
    Assoc(p, f5, e);
    Assoc(p, f4, ".");
    Assoc(p, f3, token);
    Assoc(p, f2, "-");
    Assoc(p, f1, d);
    Assoc(p, b, "-");
    var h := p + b + "-";
    var tail := token + ("." + e);
    Assoc(h, d + "-", tail);
    Assoc(h, d, "-");
    Assoc(h + d + "-", token, "." + e);
    Assoc(h + d + "-" + token, ".", e);
  }

  /** Helper for `KeyAsParts`: concatenation regroups freely. */
  lemma Assoc(a: string, b: string, c: string)
    ensures a + (b + c) == a + b + c
  {
  }

  /** Right after the folder and its `/`, a key goes on with the first character of the base name. */
  lemma KeyCharAfterFolder(originalName: string, folder: string, t: nat, token: string)
    requires |BaseName(originalName)| >= 1
    ensures GenerateFileName(originalName, folder, t, token)[|folder| + 1] == BaseName(originalName)[0]
  {
    KeyAsParts(originalName, folder, t, token);
  }

  /** The digits before the first `-` give the clock reading back, and what follows them, less the extension, the token. */
  lemma StampAndTokenDecode(t1: nat, t2: nat, token1: string, token2: string, e: string)
    requires Decimal(t1) + ['-'] + (token1 + e) == Decimal(t2) + ['-'] + (token2 + e)
    ensures t1 == t2 && token1 == token2
  {
    DigitsBeforeDash(t1, token1 + e);
    DigitsBeforeDash(t2, token2 + e);
    DecimalInjective(t1, t2);
    CommonPrefix(Decimal(t1) + ['-'], token1 + e, token2 + e);
    CommonSuffix(token1, token2, e);
  }

  lemma CommonPrefix(p: string, a: string, b: string)
    requires p + a == p + b
    ensures a == b
  {
    assert a == (p + a)[|p|..];
    assert b == (p + b)[|p|..];
  }

  lemma CommonSuffix(a: string, b: string, e: string)
    requires a + e == b + e
    ensures a == b
  {
    assert a == (a + e)[..|a|];
    assert b == (b + e)[..|b|];
  }

  /** The decimal rendering of a clock reading ends at the first `-` that follows it. */
  lemma DigitsBeforeDash(t: nat, rest: string)
    ensures FirstSegment(Decimal(t) + ['-'] + rest, '-') == Decimal(t)
  {
    var d := Decimal(t);
    assert forall i :: 0 <= i < |d| ==> d[i] != '-';
    FirstSegmentBefore(d, rest, '-');
  }
}
