/** The name shown for a section key in the section selector:
    key.replace(/_/g, ' ').replace(/\b\w/g, l => l.toUpperCase()). */
module SectionName {

  /** The regular-expression class \w, which is ASCII only without the u flag. */
  predicate IsWordChar(c: char) {
    'a' <= c <= 'z' || 'A' <= c <= 'Z' || '0' <= c <= '9' || c == '_'
  }

  predicate IsAlnum(c: char) {
    IsWordChar(c) && c != '_'
  }

  /** toUpperCase on a character of \w: only the lower-case letters change. */
  function ToUpper(c: char): char {
    if 'a' <= c <= 'z' then ((c as int) - 32) as char else c
  }

  /** key.replace(/_/g, ' ') */
  function SpaceForUnderscore(key: string): (r: string)
    ensures |r| == |key|
    ensures forall k :: 0 <= k < |key| ==> r[k] == if key[k] == '_' then ' ' else key[k]
  {
    if key == [] then []
    else
      var n := |key| - 1;
      SpaceForUnderscore(key[..n]) + [if key[n] == '_' then ' ' else key[n]]
  }

  /** /\b\w/ matches at position k of t: a word character with no word
      character just before it. */
  predicate StartsWord(t: string, k: nat)
    requires k < |t|
  {
    IsWordChar(t[k]) && (k == 0 || !IsWordChar(t[k - 1]))
  }

  /** t.replace(/\b\w/g, l => l.toUpperCase()) */
  function UpperWordStarts(t: string): (r: string)
    ensures |r| == |t|
    ensures forall k :: 0 <= k < |t| ==> r[k] == if StartsWord(t, k) then ToUpper(t[k]) else t[k]
  {
    if t == [] then []
    else
      var n := |t| - 1;
      assert forall k :: 0 <= k < n ==> StartsWord(t[..n], k) == StartsWord(t, k);
      UpperWordStarts(t[..n]) + [if StartsWord(t, n) then ToUpper(t[n]) else t[n]]
  }

  /** The display name of a section key, described on the key itself: each
      underscore becomes a space, and each letter or digit that begins the key
      or follows a character other than a letter or digit is upper-cased;
      every other character is kept. */
  function DisplayName(key: string): (r: string)
    ensures |r| == |key|
    ensures forall k :: 0 <= k < |key| ==>
      r[k] == if IsAlnum(key[k]) && (k == 0 || !IsAlnum(key[k - 1])) then ToUpper(key[k])
              else if key[k] == '_' then ' '
              else key[k]
  {
    UpperWordStarts(SpaceForUnderscore(key))
  }

  /** A display name is its own display name: it has no underscores left and
      its word starts are already upper case. */
  lemma DisplayNameIdempotent(key: string)
    ensures DisplayName(DisplayName(key)) == DisplayName(key)
  {
    var r := DisplayName(key);
    var rr := DisplayName(r);
    forall k | 0 <= k < |key|
      ensures rr[k] == r[k]
    {
      SameClass(key, k);
      if k > 0 {
        SameClass(key, k - 1);
      }
    }
  }

  /** Position k of a display name holds a letter or digit exactly when the
      key does there, and never an underscore. */
  lemma SameClass(key: string, k: nat)
    requires k < |key|
    ensures IsAlnum(DisplayName(key)[k]) == IsAlnum(key[k])
    ensures DisplayName(key)[k] != '_'
  {
  }
}
