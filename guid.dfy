/**
 * Rewriting the separators of the textual form of a GUID (the
 * 8-4-4-4-12 hyphenated form of section 3 of RFC 4122):
 * `guid.split('-').join(separator)`.
 */
module Guid {

  import opened Optional

  /** JavaScript's `String.prototype.split` with a one-character separator. */
  function Split(s: string, sep: char): (parts: seq<string>)
    ensures |parts| >= 1
    ensures forall i :: 0 <= i < |parts| ==> sep !in parts[i]
  {
    if s == [] then [[]]
    else
      var rest := Split(s[1..], sep);
      if s[0] == sep then [[]] + rest else [[s[0]] + rest[0]] + rest[1..]
  }

  /** JavaScript's `Array.prototype.join`: the parts with `sep` between neighbours. */
  function Join(parts: seq<string>, sep: string): string {
    if |parts| == 0 then []
    else if |parts| == 1 then parts[0]
    else parts[0] + sep + Join(parts[1..], sep)
  }

  /** Reference definition: each '-' of `s` replaced by `sep`, every other character kept. */
  function ReplaceHyphens(s: string, sep: string): string {
    if s == [] then [] else (if s[0] == '-' then sep else [s[0]]) + ReplaceHyphens(s[1..], sep)
  }

  function CountHyphens(s: string): nat {
    if s == [] then 0 else (if s[0] == '-' then 1 else 0) + CountHyphens(s[1..])
  }

  /** The characters of `s` other than '-', in order. */
  function WithoutHyphens(s: string): string {
    if s == [] then [] else (if s[0] == '-' then [] else [s[0]]) + WithoutHyphens(s[1..])
  }

  /** `parseGuid(guid, separator)`: unchanged when no separator is given. */
  function ParseGuid(guid: string, separator: Option<string>): (r: string)
    ensures separator.None? ==> r == guid
  {
    match separator
    case None => guid
    case Some(sep) => Join(Split(guid, '-'), sep)
  }

  /** Splitting at '-' and joining with `sep` replaces every '-' by `sep`. */
  lemma {:induction false} JoinSplitReplaces(s: string, sep: string)
    ensures Join(Split(s, '-'), sep) == ReplaceHyphens(s, sep)
  {
    if s != [] {
      JoinSplitReplaces(s[1..], sep);
      var rest := Split(s[1..], '-');
      if s[0] != '-' {
        if |rest| > 1 {
          assert ([[s[0]] + rest[0]] + rest[1..])[1..] == rest[1..];
          assert Join(rest, sep) == rest[0] + sep + Join(rest[1..], sep);
        }
      } else {
        assert ([[]] + rest)[1..] == rest;
      }
    }
  }

  lemma ParseGuidReplaces(guid: string, sep: string)
    ensures ParseGuid(guid, Some(sep)) == ReplaceHyphens(guid, sep)
  {
    JoinSplitReplaces(guid, sep);
  }

  lemma {:induction false} ReplaceLength(s: string, sep: string)
    ensures |ReplaceHyphens(s, sep)| == |s| + CountHyphens(s) * (|sep| - 1)
  {
    if s != [] { ReplaceLength(s[1..], sep); }
  }

  /** The length grows by `|sep| - 1` per hyphen. */
  lemma ParseGuidLength(guid: string, sep: string)
    ensures |ParseGuid(guid, Some(sep))| == |guid| + CountHyphens(guid) * (|sep| - 1)
  {
    ParseGuidReplaces(guid, sep);
    ReplaceLength(guid, sep);
  }

  lemma {:induction false} ReplaceWithHyphenIsIdentity(s: string)
    ensures ReplaceHyphens(s, "-") == s
  {
    if s != [] {
      ReplaceWithHyphenIsIdentity(s[1..]);
      assert s == [s[0]] + s[1..];
    }
  }

  /** With separator '-' the guid comes back unchanged. */
  lemma ParseGuidHyphenIdentity(guid: string)
    ensures ParseGuid(guid, Some("-")) == guid
  {
    ParseGuidReplaces(guid, "-");
    ReplaceWithHyphenIsIdentity(guid);
  }

  lemma {:induction false} ReplaceWithEmptyDropsHyphens(s: string)
    ensures ReplaceHyphens(s, "") == WithoutHyphens(s)
  {
    if s != [] { ReplaceWithEmptyDropsHyphens(s[1..]); }
  }

  lemma {:induction false} WithoutHyphensHasNone(s: string)
    ensures '-' !in WithoutHyphens(s)
  {
    if s != [] { WithoutHyphensHasNone(s[1..]); }
  }

  /** With the empty separator the other characters are kept in order and no '-' is left. */
  lemma ParseGuidEmptySeparator(guid: string)
    ensures ParseGuid(guid, Some("")) == WithoutHyphens(guid)
    ensures '-' !in ParseGuid(guid, Some(""))
  {
    ParseGuidReplaces(guid, "");
    ReplaceWithEmptyDropsHyphens(guid);
    WithoutHyphensHasNone(guid);
  }

  lemma {:induction false} ReplaceContainsSeparator(s: string, sep: string)
    requires '-' in s && sep != []
    ensures sep[0] in ReplaceHyphens(s, sep)
  {
    if s[0] == '-' {
      assert ReplaceHyphens(s, sep)[0] == sep[0];
    } else {
      ReplaceContainsSeparator(s[1..], sep);
      assert ReplaceHyphens(s, sep) == [s[0]] + ReplaceHyphens(s[1..], sep);
    }
  }

  /** With separator '/' and a guid holding a '-', the result holds a '/'. */
  lemma ParseGuidSlashSeparator(guid: string)
    requires '-' in guid
    ensures '/' in ParseGuid(guid, Some("/"))
  {
    ParseGuidReplaces(guid, "/");
    ReplaceContainsSeparator(guid, "/");
  }
}
