/** Invitation tokens (src/invitation/invitation-token.ts). */
module InvitationTokens {

  /** Longest raw token accepted from clients. */
  const INVITE_TOKEN_MAX_LENGTH := 256

  /** Base64url spells 32 random bytes with 43 characters and no padding. */
  const MINTED_LENGTH := 43

  /** What is stored and looked up; a constructor is injective, as the hash is taken to be. */
  datatype TokenHash = Sha256(raw: string)

  predicate IsTokenChar(c: char) {
    'A' <= c <= 'Z' || 'a' <= c <= 'z' || '0' <= c <= '9' || c == '_' || c == '-'
  }

  predicate IsPlausibleInviteToken(token: string) {
    && 0 < |token| <= INVITE_TOKEN_MAX_LENGTH
    && forall i :: 0 <= i < |token| ==> IsTokenChar(token[i])
  }

  /** The shape of a freshly minted token. */
  predicate IsMintedShape(token: string) {
    && |token| == MINTED_LENGTH
    && forall i :: 0 <= i < |token| ==> IsTokenChar(token[i])
  }
}
