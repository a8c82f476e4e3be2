/** A text value whose byte length never exceeds a bound: the borrowed
    view `LimitedStr` and the owned buffer `LimitedString` of the
    `limited_str` crate, with their validating constructors, the trusted
    unchecked constructor and the two conversions between them.

    Rust carries the bound as a const generic `MAX_LENGTH`, part of the
    type. Dafny has no value-indexed types, so here every value carries its
    bound in the field `maxLength`, and the subset types below state the
    crate's single invariant: the content is at most `maxLength` bytes.
    Two values with different bounds are therefore always different values,
    which is the run-time counterpart of the crate's type distinctness. */
module Limited {
  import opened Wrappers

  /** Text as the crate measures it: `str::len` counts bytes. */
  type Bytes = seq<bv8>

  /** Does content `s` fit within `maxLength` bytes? The invariant of both
      subset types, and the test both validating constructors apply. */
  predicate WithinBound(maxLength: nat, s: Bytes) {
    |s| <= maxLength
  }

  /** The representation of a borrowed view: a bound and the bytes viewed. */
  datatype StrView = StrView(maxLength: nat, str: Bytes)

  /** The representation of an owned buffer: a bound and the bytes owned. */
  datatype StringBuf = StringBuf(maxLength: nat, str: Bytes)

  /** `LimitedStr<MAX_LENGTH>`: a view whose content fits its bound. */
  type LimitedStr = v: StrView | WithinBound(v.maxLength, v.str)
    witness StrView(0, [])

  /** `LimitedString<MAX_LENGTH>`: a buffer whose content fits its bound. */
  type LimitedString = o: StringBuf | WithinBound(o.maxLength, o.str)
    witness StringBuf(0, [])

  /** `LimitedStr::from_str_unchecked`: reinterprets `s` as a view without
      looking at its length. In Rust the bound is the caller's obligation
      and breaking it is undefined behaviour; here that obligation is the
      precondition, so every caller has to prove it. */
  function FromStrUnchecked(maxLength: nat, s: Bytes): (v: LimitedStr)
    requires |s| <= maxLength
    ensures v.str == s
    ensures v.maxLength == maxLength
  {
    StrView(maxLength, s)
  }

  /** `LimitedStr::from_str`: a view of exactly `s` when `s` is at most
      `maxLength` bytes long, and nothing otherwise. */
  function FromStr(maxLength: nat, s: Bytes): (r: Option<LimitedStr>)
    ensures r.Some? <==> |s| <= maxLength
    ensures r.Some? ==> r.value.str == s && r.value.maxLength == maxLength
  {
    if WithinBound(maxLength, s) then Some(FromStrUnchecked(maxLength, s)) else None
  }

  /** `ToOwned for LimitedStr`: an owned buffer holding the view's content
      under the same bound; the bound still holds of the copy. */
  function ToOwned(v: LimitedStr): (o: LimitedString)
    ensures o.str == v.str
    ensures o.maxLength == v.maxLength
  {
    StringBuf(v.maxLength, v.str)
  }

  /** `to_owned` as the byte-wise copy that `str::to_owned` performs: the
      view's bytes are written one by one into a freshly allocated buffer,
      and the buffer's content becomes the owned value. */
  method CopyToOwned(v: LimitedStr) returns (o: LimitedString)
    ensures o.str == v.str
    ensures o.maxLength == v.maxLength
    ensures o == ToOwned(v)
  {
    var buf := new bv8[|v.str|];
    for i := 0 to |v.str|
      invariant forall j :: 0 <= j < i ==> buf[j] == v.str[j]
    {
      buf[i] := v.str[i];
    }
    o := StringBuf(v.maxLength, buf[..]);
  }

  /** `LimitedString::from_string`: takes ownership of `s` and wraps it
      when it is at most `maxLength` bytes long; otherwise hands the very
      same string back as the error, so nothing is lost on rejection. */
  function FromString(maxLength: nat, s: Bytes): (r: Result<LimitedString, Bytes>)
    ensures r.Ok? <==> |s| <= maxLength
    ensures r.Ok? ==> r.value.str == s && r.value.maxLength == maxLength
    ensures r.Err? ==> r.error == s
  {
    if WithinBound(maxLength, s) then Ok(StringBuf(maxLength, s)) else Err(s)
  }

  /** `Borrow for LimitedString`: a view of the buffer's own content under
      the same bound, made through the unchecked constructor; the buffer's
      invariant is what discharges that constructor's precondition. */
  function Borrow(o: LimitedString): (v: LimitedStr)
    ensures v.str == o.str
    ensures v.maxLength == o.maxLength
  {
    FromStrUnchecked(o.maxLength, o.str)
  }

  /** Boundary of the length test: it is `<=`, so content of exactly
      `maxLength` bytes is accepted by both validating constructors and one
      byte more is rejected by both. */
  lemma BoundaryIsInclusive(maxLength: nat, s: Bytes, t: Bytes)
    requires |s| == maxLength
    requires |t| == maxLength + 1
    ensures FromStr(maxLength, s) == Some(StrView(maxLength, s))
    ensures FromString(maxLength, s) == Ok(StringBuf(maxLength, s))
    ensures FromStr(maxLength, t) == None
    ensures FromString(maxLength, t) == Err(t)
  {
  }

  /** The borrowed and the owned entry points enforce the same bound: one
      accepts `s` exactly when the other does, and copying the accepted
      view gives the accepted buffer. */
  lemma ConstructorsAgree(maxLength: nat, s: Bytes)
    ensures FromStr(maxLength, s).Some? <==> FromString(maxLength, s).Ok?
    ensures FromStr(maxLength, s).Some? ==>
              ToOwned(FromStr(maxLength, s).value) == FromString(maxLength, s).value
  {
  }

  /** Borrowing a copy gives back the original view. */
  lemma BorrowOfToOwned(v: LimitedStr)
    ensures Borrow(ToOwned(v)) == v
  {
  }

  /** Copying a borrow gives back the original buffer. */
  lemma ToOwnedOfBorrow(o: LimitedString)
    ensures ToOwned(Borrow(o)) == o
  {
  }

  /** Round trip through every conversion: an accepted `s` comes back
      unchanged from `borrow(to_owned(from_str(s)))`. */
  lemma FromStrRoundTrip(maxLength: nat, s: Bytes)
    requires |s| <= maxLength
    ensures FromStr(maxLength, s).Some?
    ensures Borrow(ToOwned(FromStr(maxLength, s).value)).str == s
  {
  }

  /** Re-validating the content of any buffer under its own bound always
      succeeds and rebuilds that same buffer: `from_string` never rejects
      what a `LimitedString` already holds. */
  lemma RevalidateSucceeds(o: LimitedString)
    ensures FromString(o.maxLength, o.str) == Ok(o)
  {
  }

  /** Likewise for views: `from_str` on a view's content rebuilds the view. */
  lemma RevalidateViewSucceeds(v: LimitedStr)
    ensures FromStr(v.maxLength, v.str) == Some(v)
  {
  }

  /** The bound is part of a value's identity: the same content accepted
      under two different bounds gives two different views and two
      different buffers. */
  lemma BoundIsPartOfIdentity(m: nat, n: nat, s: Bytes)
    requires m != n
    requires |s| <= m && |s| <= n
    ensures FromStr(m, s) != FromStr(n, s)
    ensures FromString(m, s) != FromString(n, s)
  {
  }

  /** In this byte model a rejected string can always be retried truncated
      to the bound: its first `maxLength` bytes are accepted. (With UTF-8
      text, as in Rust, such a cut may fall inside a character and is then
      not possible; UTF-8 validity is outside this model.) */
  lemma TruncatedRetrySucceeds(maxLength: nat, s: Bytes)
    requires FromString(maxLength, s).Err?
    ensures FromString(maxLength, FromString(maxLength, s).error[..maxLength]).Ok?
  {
  }

  /** The unchecked constructor agrees with the checked one wherever its
      precondition holds: `from_str` on such content yields exactly the
      view `from_str_unchecked` makes. */
  lemma UncheckedAgreesWithFromStr(maxLength: nat, s: Bytes)
    requires |s| <= maxLength
    ensures FromStr(maxLength, s) == Some(FromStrUnchecked(maxLength, s))
  {
  }
}
