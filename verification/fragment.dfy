/** The address-bar fragment that records the current slide: written as
    `#slide-N` and read back with `parseInt`. */
module Fragment {
  import opened Wrappers
  import opened Decimal

  const Prefix: string := "#slide-"

  /** The fragment `updateURL` writes for slide `k`; `location.hash` reports
      it with its leading `#`. */
  function Format(k: int): (h: string)
    ensures Prefix <= h
  {
    Prefix + ShowInt(k)
  }

  /** The number `loadFromURL` reads from a fragment: `None` when the fragment
      does not start with `#slide-` or when `parseInt` of the rest is `NaN`.
      The fragment starts with the prefix, so replacing the first occurrence
      of the prefix by nothing drops exactly the prefix. */
  function Requested(hash: string): (r: Option<int>)
    ensures !(Prefix <= hash) ==> r == None
  {
    if Prefix <= hash then ParseInt(hash[|Prefix|..]) else None
  }

  /** Everything after the prefix is handed to `parseInt`. */
  lemma RequestedAfterPrefix(s: string)
    ensures Requested(Prefix + s) == ParseInt(s)
  {
    assert (Prefix + s)[|Prefix|..] == s;
  }

  /** Round trip: every fragment `updateURL` writes is read back as the
      number it was written for. */
  lemma FormatRoundTrip(k: int)
    ensures Requested(Format(k)) == Some(k)
  {
    RequestedAfterPrefix(ShowInt(k));
    ParseShowInt(k);
  }

  /** What follows the digits is ignored: `#slide-7abc` and `#slide-7.5`
      both request slide 7. */
  lemma TrailingTextIgnored(k: nat, t: string)
    requires t == [] || !IsDecimalDigit(t[0])
    requires k == 0 ==> t == [] || (t[0] != 'x' && t[0] != 'X')
    ensures Requested(Prefix + Show(k) + t) == Some(k)
  {
    assert Prefix + Show(k) + t == Prefix + (Show(k) + t);
    RequestedAfterPrefix(Show(k) + t);
    ParseShowThen(k, t);
  }

  /** A fragment with no digits after the prefix requests nothing. */
  lemma NoDigitsNoRequest(t: string)
    requires t == [] || (!IsJsSpace(t[0]) && t[0] != '+' && t[0] != '-' && !IsDecimalDigit(t[0]))
    ensures Requested(Prefix + t) == None
  {
    RequestedAfterPrefix(t);
    ParseRejectsNonNumeric(t);
  }
}
