/** The recovery lease predicate on storage text (pkg/core/engine/recovery_contract.go). */
module RecoveryLease {
  import opened StorageUint
  import opened Text
  import opened Wrappers

  datatype Holder = Holder(scope: string, topic: string, peerID: string, jobID: string)

  datatype Lease = Lease(holder: Holder, chainEpoch: string, generation: string, token: string, expiresAt: string)

  function IsRecoveryLeaseCurrent(expected: Lease, current: Lease, now: string): Result<bool, StorageError> {
    if expected.holder != current.holder then Success(false)
    else
      var expectedEpoch :- ParseStorageUint64(expected.chainEpoch);
      var currentEpoch :- ParseStorageUint64(current.chainEpoch);
      var expectedGeneration :- ParseStorageUint64(expected.generation);
      var currentGeneration :- ParseStorageUint64(current.generation);
      var expectedToken :- ParseStorageUint64(expected.token);
      var currentToken :- ParseStorageUint64(current.token);
      var expires :- ParseStorageUint64(current.expiresAt);
      var time :- ParseStorageUint64(now);
      Success(expectedEpoch == currentEpoch && expectedGeneration == currentGeneration && expectedToken == currentToken &&
              expires > time)
  }

  predicate Canonical(text: string) {
    ParseStorageUint64(text).Success?
  }

  lemma CanonicalTextsCompare(a: string, b: string)
    requires Canonical(a) && Canonical(b)
    ensures ParseStorageUint64(a) == ParseStorageUint64(b) <==> a == b
  {
    ParsesExactlyCanonicalText(a, ParseStorageUint64(a).value);
    ParsesExactlyCanonicalText(b, ParseStorageUint64(b).value);
  }

  /**
   * A lease is current exactly when it is the expected one text for text, its expiry apart, and its stored expiry is
   * byte-wise after the stored time: what the compare-and-swap on encoded fields checks.
   */
  lemma CurrentLeaseIsTheStoredOne(expected: Lease, current: Lease, now: string)
    ensures IsRecoveryLeaseCurrent(expected, current, now) == Success(true) <==>
      && expected.(expiresAt := current.expiresAt) == current
      && Canonical(current.chainEpoch) && Canonical(current.generation) && Canonical(current.token)
      && Canonical(current.expiresAt) && Canonical(now)
      && Less(EncodeUint64(now).value, EncodeUint64(current.expiresAt).value)
  {
    hide ParseStorageUint64, Less;
    if Canonical(expected.chainEpoch) && Canonical(current.chainEpoch) {
      CanonicalTextsCompare(expected.chainEpoch, current.chainEpoch);
    }
    if Canonical(expected.generation) && Canonical(current.generation) {
      CanonicalTextsCompare(expected.generation, current.generation);
    }
    if Canonical(expected.token) && Canonical(current.token) {
      CanonicalTextsCompare(expected.token, current.token);
    }
    if Canonical(current.expiresAt) && Canonical(now) {
      EncodingKeepsOrder(now, current.expiresAt);
    }
  }
}
