# limited_str in Dafny

A model of the `limited_str` crate: a pair of string types whose byte length
never exceeds a bound fixed by the type. `LimitedStr<MAX_LENGTH>` is a
borrowed view and `LimitedString<MAX_LENGTH>` is an owned buffer. Both keep one
invariant: the content is at most `MAX_LENGTH` bytes long.

- `wrappers.dfy`: module `Wrappers`. It holds `Option` and `Result` with Rust's case names (`Some`/`None`, `Ok`/`Err`).
- `limited.dfy`: module `Limited`. It holds the two types as subset types over `seq<bv8>`. It models the two validating constructors (`from_str`, `from_string`) and the trusted unchecked constructor (`from_str_unchecked`). It models the conversions `to_owned` and `borrow`. It also holds the lemmas relating these operations.
- `serde.dfy`: module `LimitedSerde`. It models the transparent serialised form and the validation step of `Deserialize for LimitedString`.

Content is a byte sequence, because `str::len` counts bytes.

Dafny has no const generics, and abstract or refining modules are not used
here. So every value carries its bound in a field, `maxLength`. The subset
types `LimitedStr` and `LimitedString` state the invariant
`|str| <= maxLength`. The bound is stored in each value instead of in the type. Two
types with different bounds are not distinguished by the type checker.
Instead, values built under different bounds are never equal
(`Limited.BoundIsPartOfIdentity`).

`from_str_unchecked` is an `unsafe fn` whose bound is the caller's obligation.
It is modelled with the precondition `|s| <= maxLength` and no run-time check.
So every caller has to prove the bound. `borrow` does so from the
`LimitedString` invariant, and `from_str` does so from its own test.

## Model

| member | source | states |
|---|---|---|
| Limited.FromStrUnchecked | src/lib.rs:26-32 | Given content the caller guarantees to be within the bound, yields a view of exactly that content under that bound; no check is made. |
| Limited.FromStr | src/lib.rs:18-24 | Returns `Some` if and only if `s` is at most `maxLength` bytes; on success the view holds exactly `s` under bound `maxLength`. |
| Limited.ToOwned | src/lib.rs:40-46 | The owned value has the view's content and bound, and still satisfies the bound invariant. |
| Limited.CopyToOwned | src/lib.rs:43-45 | Copying the view's bytes one by one into a new buffer yields an owned value with the view's exact content and bound. |
| Limited.FromString | src/lib.rs:49-55 | Returns `Ok` if and only if `s` is at most `maxLength` bytes; `Ok` wraps exactly `s`; `Err` returns the original `s` unmodified. |
| Limited.Borrow | src/lib.rs:11-15 | The view has the owned buffer's content and bound; the buffer's invariant discharges the unchecked constructor's precondition. |
| Limited.BoundaryIsInclusive | src/lib.rs:49-51 | Content of exactly `maxLength` bytes is accepted by `from_string` and by `from_str` (line 19); `maxLength + 1` bytes is rejected by both. |
| Limited.ConstructorsAgree | src/lib.rs:17-55 | `from_str` and `from_string` accept the same inputs; copying the accepted view gives the accepted buffer. |
| Limited.BorrowOfToOwned | src/lib.rs:40-46 | Borrowing from the copy of a view gives back that view. |
| Limited.ToOwnedOfBorrow | src/lib.rs:11-15 | Copying a borrowed view of a buffer gives back that buffer. |
| Limited.FromStrRoundTrip | src/lib.rs:11-24 | For accepted `s`, `borrow(to_owned(from_str(s)))` has content exactly `s`. |
| Limited.RevalidateSucceeds | src/lib.rs:49-55 | Re-validating any `LimitedString`'s content under its own bound succeeds and rebuilds the same buffer. |
| Limited.RevalidateViewSucceeds | src/lib.rs:18-24 | Re-validating any view's content under its own bound succeeds and rebuilds the same view. |
| Limited.BoundIsPartOfIdentity | src/lib.rs:38 | The same content accepted under two different bounds gives different views and different buffers. |
| Limited.TruncatedRetrySucceeds | src/lib.rs:49-55 | In the byte model, the first `maxLength` bytes of a rejected string (returned unchanged as the error) are accepted. |
| Limited.UncheckedAgreesWithFromStr | src/lib.rs:18-32 | Wherever the unchecked constructor's precondition holds, `from_str` yields exactly the view `from_str_unchecked` makes. |
| LimitedSerde.SerializeStr | src/lib.rs:7 | A `LimitedStr` serialises as exactly its content; validating that under the view's bound gives the view back. |
| LimitedSerde.SerializeString | src/lib.rs:36 | A `LimitedString` serialises as exactly its content; deserialising that under the buffer's bound gives the buffer back. |
| LimitedSerde.Deserialize | src/lib.rs:64-71 | A failed string read passes through unchanged; a string within the bound yields a buffer of exactly that string; a longer one yields an invalid-length error carrying its byte length. |
| LimitedSerde.DeserializeAgreesWithFromString | src/lib.rs:64-65 | Deserialisation accepts exactly what `from_string` accepts and yields the same buffer. |
| LimitedSerde.SerializeRoundTrip | src/lib.rs:59-73 | Deserialising the transparent serialised form of a buffer under its bound gives that buffer back. |
| LimitedSerde.SerializationIsTransparent | src/lib.rs:7-38 | A view, the buffer it borrows from, and the buffer copied from it all serialise as the same plain content. |
| LimitedSerde.DeserializeBoundFiveExample | src/lib.rs:64-71 | With bound 5, "abcde" is admitted unchanged and "abcdef" is refused with observed length 6. |

The invalid-length error carries the observed length and a fixed description
(`LimitedSerde.Expected`). It does not carry the bound itself. The model
follows the code here. The description reads "less than max length", but the
test is "at most": a string of exactly `MAX_LENGTH` bytes is accepted. The
model keeps the text as written and the `<=` test as written.

## Left out

- The `union StrRepr` pointer reinterpretation and `#[repr(transparent)]` layout are memory-layout techniques. A view is modelled as a plain wrap of its content.
- Lifetimes and borrow-checker rules are not modelled. These include the rule that a borrowed view must not outlive its `LimitedString`. A value model has no counterpart for them.
- UTF-8 validity is not modelled. `str` and `String` guarantee it, not this crate, so content is an arbitrary byte sequence. In particular `Limited.TruncatedRetrySucceeds` holds of bytes; in Rust a cut at `MAX_LENGTH` bytes may fall inside a character.
- The serde machinery is left out because it is foreign-library code. This covers the `Serializer`/`Deserializer` traits, reading the plain string off the wire, and building `de::Error` values. Deserialisation starts from an already-decoded `Result` of bytes. The transparent `Serialize` derive is modelled as the content itself (`SerializeStr`, `SerializeString`); wire bytes are not modelled.
- The static distinction between types such as `LimitedStr<3>` and `LimitedStr<5>` is lost, because the bound is a field of each value. `Limited.BoundIsPartOfIdentity` is the run-time stand-in: values under different bounds are never equal.
- The `Debug` and `Clone` derives are not modelled. Cloning an immutable value is the identity.
- `usize` width is not modelled. `MAX_LENGTH` and lengths are unbounded naturals. No arithmetic is done on them, so nothing can wrap.
- Limited.FromStrUnchecked: misuse, meaning a call with content over the bound, is excluded by the precondition. Rust leaves such a call possible and undefined.
