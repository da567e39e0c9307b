# WireGuard client config generation, in Dafny

This project models `generateConfig` of the WireGuard client page of
wireguard-ui (`src/pages/WireGuardClientConfig.tsx:19-42`). One press of
"Generate Config" does three things:

- It takes a fresh key pair.
- It encodes the secret key and the public key in standard base64.
- It fills the encoded secret key and the six form values (client IP, server
  public key, server endpoint, allowed IPs, DNS, persistent keepalive) into a
  fixed WireGuard client configuration template, and trims the result with
  `.trim()`.

The page then shows the config text and, separately, the encoded client
public key.

The model is a pure function of the key pair and the form values. It has four
modules:

- `Base64` (`base64.dfy`). The base64 of section 4 of RFC 4648, which is what
  `Buffer.toString('base64')` yields, plus a strict decoder as its partner.
  The decoder rejects bad lengths, foreign characters, misplaced padding and
  non-zero pad bits (section 3.5 of RFC 4648), so encoding and decoding are
  exact inverses in both directions.
- `JsTrim` (`js_trim.dfy`). `String.prototype.trim` of ECMA-262: it drops
  leading and trailing WhiteSpace and LineTerminator code points.
- `TextLines` (`text_lines.dfy`). Joining lines with `"\n"` and splitting
  text at every `"\n"`, used to read the config line by line.
- `WireGuardClientConfig` (`wireguard_client_config.dfy`). The form values,
  the template, `GenerateConfig`, and the layout properties of its result.

The template literal opens with a line feed and closes with a line feed and
four spaces of indentation. `.trim()` removes exactly those. It also removes
any trailing whitespace of the keepalive value, and the space after `=` when
the keepalive value is blank. Nothing else changes. The result is ten lines:

- `[Interface]`
- `PrivateKey = `, `Address = ` and `DNS = `
- one empty line
- `[Peer]`
- `PublicKey = `, `Endpoint = `, `AllowedIPs = ` and `PersistentKeepalive = `

Each value stands verbatim after its prefix, with no escaping and no
validation.

The model follows the code on three points:

- There is one empty line between the DNS line and `[Peer]`
  (`src/pages/WireGuardClientConfig.tsx:32`).
- The keepalive value is text. The input box stores the text of the input
  field (`src/components/input-fields.tsx:18`), and the initial number 25
  (`src/pages/WireGuardClientConfig.tsx:15`) renders as `"25"`.
- The whole secret key is encoded, whatever its length. The comment at
  `src/pages/WireGuardClientConfig.tsx:23` speaks of 32 bytes, but line 24
  encodes all of `raw.secretKey`. So `GenerateConfig` has no length
  precondition, and `EncodeKeySize` states what happens for 32 bytes.

Determinism holds by construction: `GenerateConfig` is a Dafny function, so
equal key pairs and form values give equal results. The key draw is the only
source of variation, and it is an input here.

## Model

| member | source | states |
|---|---|---|
| WireGuardClientConfig.TemplateLines | src/pages/WireGuardClientConfig.tsx:27-38 | the template literal line by line: an empty first line, the ten lines with the values interpolated verbatim, and the four-space closing line; characterized by TemplateParts |
| WireGuardClientConfig.Template | src/pages/WireGuardClientConfig.tsx:27-38 | the template literal before `.trim()`, its lines joined by `"\n"`; characterized by TemplateParts and TrimOnlyAtEnds |
| WireGuardClientConfig.ConfigLines | src/pages/WireGuardClientConfig.tsx:28-37 | the reference definition of the ten output lines, independent of the trim; tied to the trimmed template by RenderLayout and ConfigReadsAsLines |
| WireGuardClientConfig.KeepaliveLine | src/pages/WireGuardClientConfig.tsx:37-38 | the last output line: `PersistentKeepalive = ` and the keepalive value without its trailing whitespace, or `PersistentKeepalive =` for a blank value; tied to the trim by KeepaliveTrim |
| WireGuardClientConfig.GenerateConfig | src/pages/WireGuardClientConfig.tsx:19-42 | the config text is the ten lines of ConfigLines (private key = base64 of the whole secret key) joined by single line feeds, and the returned client public key decodes back to the public key bytes |
| WireGuardClientConfig.RenderLayout | src/pages/WireGuardClientConfig.tsx:27-38 | `.trim()` of the template literal equals the ten config lines joined by `"\n"`: the opening line feed and the closing indentation go, and every other line is kept |
| WireGuardClientConfig.ConfigReadsAsLines | src/pages/WireGuardClientConfig.tsx:27-37 | when no value holds a line feed, splitting the config at line feeds gives exactly `[Interface]`, `PrivateKey = `…, `Address = `…, `DNS = `…, an empty line, `[Peer]`, `PublicKey = `…, `Endpoint = `…, `AllowedIPs = `…, `PersistentKeepalive = `…, in that order, with each value verbatim after its prefix (an empty value still gives its line) |
| WireGuardClientConfig.PrivateKeyLine | src/pages/WireGuardClientConfig.tsx:24 | whatever the form values hold, the first line is `[Interface]`, the second is `PrivateKey = ` and the base64 secret key, and that key text decodes back to the secret key bytes |
| WireGuardClientConfig.FirstTwoLines | src/pages/WireGuardClientConfig.tsx:28-29 | for a private key without line feeds, the first two lines of the joined config lines are `[Interface]` and `PrivateKey = ` plus the key |
| WireGuardClientConfig.ConfigLinesSingle | src/pages/WireGuardClientConfig.tsx:28-37 | with a single-line key and single-line values, no config line holds a line feed |
| WireGuardClientConfig.KeepaliveTrim | src/pages/WireGuardClientConfig.tsx:37-38 | trimming the end of the keepalive line drops the value's trailing whitespace, and for a blank value also the space after `=`, leaving `PersistentKeepalive =` |
| WireGuardClientConfig.TrimFramed | src/pages/WireGuardClientConfig.tsx:27-38 | `.trim()` of a line feed, a part starting with non-whitespace, the keepalive line and the closing indentation keeps the part and the trimmed keepalive line |
| WireGuardClientConfig.TemplateParts | src/pages/WireGuardClientConfig.tsx:27-38 | the template is a line feed, the first nine config lines each closed by a line feed, the raw keepalive line, a line feed and four spaces |
| WireGuardClientConfig.ConfigParts | src/pages/WireGuardClientConfig.tsx:28-37 | the config text is its first nine lines, a line feed and the keepalive line, and it starts with `[` |
| WireGuardClientConfig.TrimOnlyAtEnds | src/pages/WireGuardClientConfig.tsx:27-38 | the template's first character is a line feed, the config is the template from its second character on, cut short, and everything cut off the end is whitespace |
| WireGuardClientConfig.KeepaliveSplit | src/pages/WireGuardClientConfig.tsx:37-38 | the raw keepalive line plus the closing indentation is the trimmed keepalive line followed by a run of whitespace |
| WireGuardClientConfig.FramedCut | src/pages/WireGuardClientConfig.tsx:27-38 | the template, in its parts, is a line feed, the config text and the whitespace that the trim cuts off |
| WireGuardClientConfig.DistinctSecretKeysDistinctConfigs | src/pages/WireGuardClientConfig.tsx:24-29 | key pairs with different secret keys never give the same config text, whatever the form values |
| WireGuardClientConfig.ConfigIgnoresPublicKey | src/pages/WireGuardClientConfig.tsx:25-41 | the client public key is not part of the config text: key pairs with equal secret keys give the same text, whatever their public keys |
| WireGuardClientConfig.InitialInputsExample | src/pages/WireGuardClientConfig.tsx:10-15 | for the initial form values (the constant InitialInputs: the `useState` defaults, with 25 as `"25"`) and any single-line server key, the config reads `[Interface]`, `PrivateKey = ` plus the base64 secret key, `Address = 10.0.0.2/32`, `DNS = 1.1.1.1`, an empty line, `[Peer]`, `PublicKey = ` plus the server key, `Endpoint = vpn.example.com:51820`, `AllowedIPs = 0.0.0.0/0`, `PersistentKeepalive = 25` |
| WireGuardClientConfig.InitialKeepaliveLine | src/pages/WireGuardClientConfig.tsx:15 | the initial keepalive 25, shown as the text `"25"`, gives the line `PersistentKeepalive = 25` |
| WireGuardClientConfig.InitialInputsSingleLine | src/pages/WireGuardClientConfig.tsx:10-15 | the initial form values hold no line feed |
| Base64.Encode | src/pages/WireGuardClientConfig.tsx:24-25 | the encoding of n bytes has 4·⌈n/3⌉ characters |
| Base64.EncodeAlphabet | src/pages/WireGuardClientConfig.tsx:24-25 | the encoding is alphabet characters followed by exactly (3 − n mod 3) mod 3 `=` characters, and `=` appears nowhere else |
| Base64.DecodeEncode | src/pages/WireGuardClientConfig.tsx:24-25 | decoding the encoding of any byte sequence gives the bytes back |
| Base64.EncodeDecode | src/pages/WireGuardClientConfig.tsx:24-25 | every text the decoder accepts is the encoding of what it decodes to, so Decode(s) = Some(b) exactly when Encode(b) = s |
| Base64.EncodeInjective | src/pages/WireGuardClientConfig.tsx:24-25 | distinct byte sequences have distinct encodings |
| Base64.EncodeHasNoLineBreaks | src/pages/WireGuardClientConfig.tsx:24-25 | the encoding holds no line feed or carriage return, so the private key stays on its line |
| Base64.EncodeKeySize | src/pages/WireGuardClientConfig.tsx:23-25 | a 32-byte key encodes to 44 characters: 43 alphabet characters and one closing `=` |
| Base64.Rfc4648TestVectors | src/pages/WireGuardClientConfig.tsx:24-25 | the encodings of "", "f", "fo", "foo", "foob", "fooba" and "foobar" are the ones listed in section 10 of RFC 4648 |
| Base64.DecodeTestVector | src/pages/WireGuardClientConfig.tsx:24-25 | "Zm9vYg==" decodes to the bytes of "foob" |
| Base64.DecodeRejects | src/pages/WireGuardClientConfig.tsx:24-25 | text the encoder never produces is refused: a bad length, non-zero pad bits, padding before the last quantum, a foreign character |
| Base64.QuantumRoundTrip | src/pages/WireGuardClientConfig.tsx:24-25 | a full quantum of three bytes decodes back to those bytes |
| Base64.QuantumCanonical | src/pages/WireGuardClientConfig.tsx:24-25 | a quantum the decoder accepts is the encoding of the three bytes it decodes to |
| Base64.FinalCanonical | src/pages/WireGuardClientConfig.tsx:24-25 | a final quantum the decoder accepts, padded or not, is the encoding of what it decodes to |
| Base64.BytesThroughSextets | src/pages/WireGuardClientConfig.tsx:24-25 | splitting three bytes into four 6-bit groups and joining them again gives the bytes back |
| Base64.SextetsThroughBytes | src/pages/WireGuardClientConfig.tsx:24-25 | joining four 6-bit groups into three bytes and splitting them again gives the groups back |
| Base64.ValueOfCharOf | src/pages/WireGuardClientConfig.tsx:24-25 | each 6-bit value's alphabet character stands for that value and is never `=` |
| JsTrim.Trim | src/pages/WireGuardClientConfig.tsx:38 | `.trim()` as TrimString of ECMA-262; characterized by TrimUnique, TrimDecomposes and TrimEndsNonWhitespace |
| JsTrim.IsWhitespace | src/pages/WireGuardClientConfig.tsx:38 | exactly the WhiteSpace and LineTerminator code points of ECMA-262, the set `.trim()` removes; spot-checked by WhitespaceSamples |
| JsTrim.WhitespaceSamples | src/pages/WireGuardClientConfig.tsx:38 | space, tab, line feed, carriage return, no-break space, byte order mark and ideographic space are whitespace; NEXT LINE, MONGOLIAN VOWEL SEPARATOR and `[` are not |
| JsTrim.TrimStartSpec | src/pages/WireGuardClientConfig.tsx:38 | the start of `.trim()`: the result is a suffix that starts with non-whitespace (unless empty), and what is dropped is all whitespace |
| JsTrim.TrimEndSpec | src/pages/WireGuardClientConfig.tsx:38 | the end of `.trim()`: the result is a prefix that ends with non-whitespace (unless empty), and what is dropped is all whitespace |
| JsTrim.TrimUnique | src/pages/WireGuardClientConfig.tsx:38 | `.trim()` of whitespace, a middle part that is empty or starts and ends with non-whitespace, and more whitespace gives exactly that middle part |
| JsTrim.TrimDecomposes | src/pages/WireGuardClientConfig.tsx:38 | `.trim()` of a text stands in the text right after its leading whitespace, with only whitespace before and after it |
| JsTrim.TrimEndsNonWhitespace | src/pages/WireGuardClientConfig.tsx:38 | `.trim()` gives text that is empty or starts and ends with non-whitespace |
| JsTrim.TrimEndAppend | src/pages/WireGuardClientConfig.tsx:38 | trimming the end of a + b drops b if b is all whitespace, and otherwise keeps a and trims b |
| JsTrim.TrimStartAfterWhitespace | src/pages/WireGuardClientConfig.tsx:38 | leading whitespace in front of non-whitespace is dropped, and nothing more |
| JsTrim.TrimEndBeforeWhitespace | src/pages/WireGuardClientConfig.tsx:38 | trailing whitespace is dropped whatever stands before it |
| TextLines.SplitJoin | src/pages/WireGuardClientConfig.tsx:27-37 | splitting lines joined by `"\n"` gives the lines back, when none holds a line feed |
| TextLines.JoinSplit | src/pages/WireGuardClientConfig.tsx:27-37 | joining the lines of a split text gives the text back |
| TextLines.JoinLinesConcat | src/pages/WireGuardClientConfig.tsx:27-37 | joining two runs of lines puts one line feed between them |
| TextLines.SplitAfterLine | src/pages/WireGuardClientConfig.tsx:27-37 | a line without a line feed, then a line feed, splits off as the first line |

## Left out

- `nacl.box.keyPair()` (`src/pages/WireGuardClientConfig.tsx:21`) is not modelled. It draws randomness and runs X25519 in tweetnacl. The key pair is an input of `GenerateConfig`, and whether tweetnacl clamps the secret key is not part of this model.
- The internals of `Buffer` are not modelled. Base64 is written from section 4 of RFC 4648 instead.
- The React state (`src/pages/WireGuardClientConfig.tsx:10-17`), the `setConfig` and `setClientPublicKey` writes (`:40-41`), the theme toggle, the animations and the JSX (`:44-98`) are presentation. The model returns the pair that would be written.
- `src/components/input-fields.tsx` is not part of this model. The one thing it contributes, that an edited value becomes the text of the input field, is reflected by the keepalive being a string.
- `src/App.tsx` is not part of this model. It only places the page in the theme provider.
- No validation of IP addresses, CIDR ranges, endpoints or keys is modelled, because the code does none.
- ConfigReadsAsLines: the line-by-line reading is stated only for values without line feeds. A value holding a line feed is still inserted verbatim (RenderLayout and GenerateConfig hold for every value), but it then spans several lines of the text.
- A JavaScript string is a sequence of UTF-16 code units; a Dafny `string` is a sequence of Unicode scalar values. A character outside the Basic Multilingual Plane is one `char` here and two code units in JavaScript, and a lone surrogate, which a JavaScript string can hold, cannot be represented here at all. The trim result is unaffected: every WhiteSpace and LineTerminator code point lies in the Basic Multilingual Plane and is not a surrogate.
