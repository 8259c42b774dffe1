/** The size limits and the name rules that the chat, Responses and streaming code share. */
module Limits {
  import Utf8

  const MAX_TEXT_CONTENT_BYTES := 1024 * 1024
  const MAX_TOOL_OUTPUT_BYTES := 1024 * 1024
  const MAX_PARALLEL_CALLS := 64
  const MAX_ARGUMENTS_BYTES := 256 * 1024
  const MAX_CALL_ID_BYTES := 128

  predicate ValidFunctionName(name: string) {
    1 <= |name| <= 64 &&
    forall c | c in name :: 'A' <= c <= 'Z' || 'a' <= c <= 'z' || '0' <= c <= '9' || c == '_' || c == '-'
  }

  predicate ValidCallID(id: string) {
    id != "" && |id| <= MAX_CALL_ID_BYTES && Utf8.Valid(id) && forall c | c in id :: 0x21 <= c as int <= 0x7E
  }

  /** A call id is 1 to 128 visible ASCII characters: the check of its UTF-8 decides nothing. */
  lemma CallIDIff(id: string)
    ensures ValidCallID(id) <==> 1 <= |id| <= 128 && forall c | c in id :: 0x21 <= c as int <= 0x7E
  {
    if forall c | c in id :: 0x21 <= c as int <= 0x7E { Utf8.AsciiFrom(id, 0); }
  }

  /** A function name is 1 to 64 letters, digits, underscores and hyphens, and so ASCII. */
  lemma FunctionNameIff(name: string)
    ensures ValidFunctionName(name) <==>
            1 <= |name| <= 64 && forall c | c in name ::
              0x41 <= c as int <= 0x5A || 0x61 <= c as int <= 0x7A || 0x30 <= c as int <= 0x39 ||
                c as int in {0x2D, 0x5F}
    ensures ValidFunctionName(name) ==> Utf8.Valid(name)
  {
    if forall c | c in name :: c as int < 0x80 { Utf8.AsciiFrom(name, 0); }
  }
}
