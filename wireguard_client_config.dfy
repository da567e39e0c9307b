/** The config generation of the WireGuard client page (`generateConfig`):
    the secret and public key of a fresh key pair are encoded in standard
    base64, the secret key and six form values are filled into a fixed
    template of a WireGuard client configuration, and the template is trimmed.
    The result is the config text together with the encoded client public
    key. The key draw itself (`nacl.box.keyPair()`) is not modelled: the key
    pair is an input, so the model is a function of its inputs. */
module WireGuardClientConfig {
  import opened Base64
  import opened JsTrim
  import opened TextLines

  /** The key pair `nacl.box.keyPair()` returns, as bytes. */
  datatype KeyPair = KeyPair(secretKey: seq<Byte>, publicKey: seq<Byte>)

  /** The six values of the form, as the input boxes hold them. Every edit
      stores the text of the input box, so the keepalive too is a string. */
  datatype ClientInputs = ClientInputs(
    clientIp: string,
    serverPublicKey: string,
    serverEndpoint: string,
    allowedIps: string,
    dns: string,
    persistentKeepalive: string)

  /** The form's values before any edit; the initial keepalive 25 renders as
      the text "25". */
  const InitialInputs: ClientInputs :=
    ClientInputs("10.0.0.2/32", "", "vpn.example.com:51820", "0.0.0.0/0", "1.1.1.1", "25")

  /** What one generation produces: the config text and the base64 client
      public key, shown separately. */
  datatype GeneratedConfig = GeneratedConfig(config: string, clientPublicKey: string)

  /** The lines of the template literal, with the encoded private key filled
      in and every value inserted verbatim. The literal opens with a line
      feed (an empty first line) and closes with a line feed and four spaces
      of indentation (the last line). */
  function TemplateLines(privateKey: string, inputs: ClientInputs): seq<string> {
    [ "",
      "[Interface]",
      "PrivateKey = " + privateKey,
      "Address = " + inputs.clientIp,
      "DNS = " + inputs.dns,
      "",
      "[Peer]",
      "PublicKey = " + inputs.serverPublicKey,
      "Endpoint = " + inputs.serverEndpoint,
      "AllowedIPs = " + inputs.allowedIps,
      "PersistentKeepalive = " + inputs.persistentKeepalive,
      "    " ]
  }

  /** The template literal before `.trim()`. */
  function Template(privateKey: string, inputs: ClientInputs): string {
    JoinLines(TemplateLines(privateKey, inputs))
  }

  /** The last line of the config: the keepalive value loses its trailing
      whitespace, and a blank value also loses the space after `=`. */
  function KeepaliveLine(keepalive: string): string {
    if AllWhitespace(keepalive) then "PersistentKeepalive ="
    else "PersistentKeepalive = " + TrimEnd(keepalive)
  }

  /** The configuration, line by line: the [Interface] section, one empty
      line, then the [Peer] section, each value after its `Name = ` prefix. */
  function ConfigLines(privateKey: string, inputs: ClientInputs): seq<string> {
    [ "[Interface]",
      "PrivateKey = " + privateKey,
      "Address = " + inputs.clientIp,
      "DNS = " + inputs.dns,
      "",
      "[Peer]",
      "PublicKey = " + inputs.serverPublicKey,
      "Endpoint = " + inputs.serverEndpoint,
      "AllowedIPs = " + inputs.allowedIps,
      KeepaliveLine(inputs.persistentKeepalive) ]
  }

  /** One run of `generateConfig` for a given key pair: the trimmed template
      and the base64 public key. The text is the ten lines of ConfigLines
      joined by single line feeds, and the public key decodes back to the
      public key bytes. */
  function GenerateConfig(raw: KeyPair, inputs: ClientInputs): (r: GeneratedConfig)
    ensures r.config == JoinLines(ConfigLines(Encode(raw.secretKey), inputs))
    ensures Decode(r.clientPublicKey) == Some(raw.publicKey)
  {
    var privateKey := Encode(raw.secretKey);
    var publicKey := Encode(raw.publicKey);
    RenderLayout(privateKey, inputs);
    DecodeEncode(raw.publicKey);
    GeneratedConfig(Trim(Template(privateKey, inputs)), publicKey)
  }

  /** Trimming the keepalive line of the template. */
  lemma KeepaliveTrim(keepalive: string)
    ensures TrimEnd("PersistentKeepalive = " + keepalive) == KeepaliveLine(keepalive)
  {
    TrimEndAppend("PersistentKeepalive = ", keepalive);
    if AllWhitespace(keepalive) {
      assert TrimEnd("PersistentKeepalive =") == "PersistentKeepalive =";
    }
  }

  /** `.trim()` of a template that opens with a line feed, continues with a
      part starting with non-whitespace, and ends with the keepalive line and
      the closing indentation. */
  lemma TrimFramed(head: string, keepalive: string)
    requires head != [] && !IsWhitespace(head[0])
    ensures Trim("\n" + (head + ("PersistentKeepalive = " + keepalive + "\n    ")))
            == head + KeepaliveLine(keepalive)
  {
    var last := "PersistentKeepalive = " + keepalive;
    var tail := "\n    ";
    TrimStartAfterWhitespace("\n", head + (last + tail));
    assert !AllWhitespace(last + tail) by {
      assert (last + tail)[0] == 'P';
    }
    TrimEndAppend(head, last + tail);
    TrimEndBeforeWhitespace(last, tail);
    KeepaliveTrim(keepalive);
  }

  /** The template is a line feed, the first nine config lines each closed by
      a line feed, then the raw keepalive line and the indentation. */
  lemma TemplateParts(privateKey: string, inputs: ClientInputs)
    ensures var middle := ConfigLines(privateKey, inputs)[..9];
            Template(privateKey, inputs)
            == "\n" + ((JoinLines(middle) + "\n") + ("PersistentKeepalive = " + inputs.persistentKeepalive + "\n    "))
  {
    var tl := TemplateLines(privateKey, inputs);
    var middle := ConfigLines(privateKey, inputs)[..9];
    var last := "PersistentKeepalive = " + inputs.persistentKeepalive;
    assert tl == [""] + (middle + [last, "    "]);
    JoinLinesConcat([""], middle + [last, "    "]);
    JoinLinesConcat(middle, [last, "    "]);
    assert JoinLines([last, "    "]) == last + "\n    ";
  }

  /** The config text is the first nine lines, a line feed, and the
      keepalive line; the first of them is "[Interface]". */
  lemma ConfigParts(privateKey: string, inputs: ClientInputs)
    ensures var middle := ConfigLines(privateKey, inputs)[..9];
            JoinLines(ConfigLines(privateKey, inputs))
            == (JoinLines(middle) + "\n") + KeepaliveLine(inputs.persistentKeepalive)
            && JoinLines(middle)[0] == '['
  {
    var cl := ConfigLines(privateKey, inputs);
    var middle := cl[..9];
    assert cl == middle + [cl[9]];
    JoinLinesConcat(middle, [cl[9]]);
    assert JoinLines(middle) == middle[0] + "\n" + JoinLines(middle[1..]);
  }

  /** What `.trim()` makes of the template: the ten lines of ConfigLines,
      joined by single line feeds. Only the opening line feed and the
      trailing whitespace are removed. */
  lemma RenderLayout(privateKey: string, inputs: ClientInputs)
    ensures Trim(Template(privateKey, inputs)) == JoinLines(ConfigLines(privateKey, inputs))
  {
    var middle := ConfigLines(privateKey, inputs)[..9];
    TemplateParts(privateKey, inputs);
    ConfigParts(privateKey, inputs);
    TrimFramed(JoinLines(middle) + "\n", inputs.persistentKeepalive);
  }

  /** No input value holds a line feed. */
  predicate SingleLineInputs(inputs: ClientInputs) {
    '\n' !in inputs.clientIp && '\n' !in inputs.serverPublicKey && '\n' !in inputs.serverEndpoint
    && '\n' !in inputs.allowedIps && '\n' !in inputs.dns && '\n' !in inputs.persistentKeepalive
  }

  /** Read line by line, the config holds exactly the ten lines of
      ConfigLines in that order, when no input value holds a line feed: it
      starts with "[Interface]", the "[Peer]" header follows the DNS line
      after exactly one empty line, and every value stands after its prefix. */
  lemma ConfigReadsAsLines(raw: KeyPair, inputs: ClientInputs)
    requires SingleLineInputs(inputs)
    ensures SplitLines(GenerateConfig(raw, inputs).config) == ConfigLines(Encode(raw.secretKey), inputs)
  {
    EncodeHasNoLineBreaks(raw.secretKey);
    ConfigLinesSingle(Encode(raw.secretKey), inputs);
    SplitJoin(ConfigLines(Encode(raw.secretKey), inputs));
  }

  /** With single-line values, no config line holds a line feed. */
  lemma ConfigLinesSingle(privateKey: string, inputs: ClientInputs)
    requires '\n' !in privateKey && SingleLineInputs(inputs)
    ensures forall i :: 0 <= i < |ConfigLines(privateKey, inputs)| ==> '\n' !in ConfigLines(privateKey, inputs)[i]
  {
    var cl := ConfigLines(privateKey, inputs);
    var k := inputs.persistentKeepalive;
    assert '\n' !in TrimEnd(k) by {
      TrimEndSpec(k);
    }
    assert '\n' !in KeepaliveLine(k);
    forall i | 0 <= i < |cl|
      ensures '\n' !in cl[i]
    {
    }
  }

  /** The first two lines of the config for a private key without line
      feeds. */
  lemma FirstTwoLines(privateKey: string, inputs: ClientInputs)
    requires '\n' !in privateKey
    ensures var lines := SplitLines(JoinLines(ConfigLines(privateKey, inputs)));
            |lines| >= 2 && lines[0] == "[Interface]" && lines[1] == "PrivateKey = " + privateKey
  {
    var cl := ConfigLines(privateKey, inputs);
    assert JoinLines(cl) == cl[0] + "\n" + JoinLines(cl[1..]);
    assert JoinLines(cl[1..]) == cl[1] + "\n" + JoinLines(cl[2..]);
    SplitAfterLine(cl[0], JoinLines(cl[1..]));
    SplitAfterLine(cl[1], JoinLines(cl[2..]));
  }

  /** Whatever the input values hold, the first line is "[Interface]" and the
      second is "PrivateKey = " followed by the base64 secret key, which
      decodes back to the secret key bytes. */
  lemma PrivateKeyLine(raw: KeyPair, inputs: ClientInputs)
    ensures var lines := SplitLines(GenerateConfig(raw, inputs).config);
            |lines| >= 2 && lines[0] == "[Interface]" && lines[1] == "PrivateKey = " + Encode(raw.secretKey)
            && Decode(lines[1][|"PrivateKey = "|..]) == Some(raw.secretKey)
  {
    var key := Encode(raw.secretKey);
    EncodeHasNoLineBreaks(raw.secretKey);
    FirstTwoLines(key, inputs);
    assert ("PrivateKey = " + key)[|"PrivateKey = "|..] == key;
    DecodeEncode(raw.secretKey);
  }

  /** Two key pairs with different secret keys never give the same config
      text, whatever the input values. */
  lemma DistinctSecretKeysDistinctConfigs(raw1: KeyPair, raw2: KeyPair, inputs1: ClientInputs, inputs2: ClientInputs)
    requires raw1.secretKey != raw2.secretKey
    ensures GenerateConfig(raw1, inputs1).config != GenerateConfig(raw2, inputs2).config
  {
    PrivateKeyLine(raw1, inputs1);
    PrivateKeyLine(raw2, inputs2);
  }

  /** The client public key is not part of the config text: two key pairs
      with the same secret key give the same text. */
  lemma ConfigIgnoresPublicKey(raw1: KeyPair, raw2: KeyPair, inputs: ClientInputs)
    requires raw1.secretKey == raw2.secretKey
    ensures GenerateConfig(raw1, inputs).config == GenerateConfig(raw2, inputs).config
  {
  }

  /** What trimming cuts off the end of the raw keepalive line and the
      closing indentation. */
  function KeepaliveCut(keepalive: string): string {
    if AllWhitespace(keepalive) then " " + keepalive + "\n    "
    else
      TrimEndSpec(keepalive);
      keepalive[|TrimEnd(keepalive)|..] + "\n    "
  }

  /** The raw keepalive line and the closing indentation are the trimmed
      keepalive line followed by the whitespace cut off it. */
  lemma KeepaliveSplit(keepalive: string)
    ensures ("PersistentKeepalive = " + keepalive) + "\n    " == KeepaliveLine(keepalive) + KeepaliveCut(keepalive)
    ensures AllWhitespace(KeepaliveCut(keepalive))
  {
    var kept := TrimEnd(keepalive);
    TrimEndSpec(keepalive);
    if AllWhitespace(keepalive) {
      assert "PersistentKeepalive = " == "PersistentKeepalive =" + " ";
      AllWhitespaceConcat(" ", keepalive);
      AllWhitespaceConcat(" " + keepalive, "\n    ");
    } else {
      var dropped := keepalive[|kept|..];
      assert keepalive == kept + dropped;
      assert ("PersistentKeepalive = " + keepalive) + "\n    "
             == ("PersistentKeepalive = " + kept) + (dropped + "\n    ");
      AllWhitespaceConcat(dropped, "\n    ");
    }
  }

  /** The template, in its parts, is a line feed, the config and the cut. */
  lemma FramedCut(head: string, keepalive: string)
    ensures "\n" + (head + ("PersistentKeepalive = " + keepalive + "\n    "))
            == "\n" + (head + KeepaliveLine(keepalive)) + KeepaliveCut(keepalive)
  {
    KeepaliveSplit(keepalive);
  }

  /** `.trim()` removes only the opening line feed of the template and a
      run of whitespace at its end: the config is the template after its
      first character, cut short, and what is cut off is all whitespace. */
  lemma TrimOnlyAtEnds(privateKey: string, inputs: ClientInputs)
    ensures var t := Template(privateKey, inputs);
            var c := Trim(t);
            |t| >= 1 + |c| && t[0] == '\n' && c == t[1..1 + |c|] && AllWhitespace(t[1 + |c|..])
  {
    var t := Template(privateKey, inputs);
    var k := inputs.persistentKeepalive;
    var head := JoinLines(ConfigLines(privateKey, inputs)[..9]) + "\n";
    TemplateParts(privateKey, inputs);
    RenderLayout(privateKey, inputs);
    ConfigParts(privateKey, inputs);
    KeepaliveSplit(k);
    FramedCut(head, k);
    SplitOffEnds(t, Trim(t), KeepaliveCut(k));
  }

  /** A line feed, a middle part and a tail, read back by position. */
  lemma SplitOffEnds(t: string, c: string, cut: string)
    requires t == "\n" + c + cut
    ensures |t| >= 1 + |c| && t[0] == '\n' && c == t[1..1 + |c|] && cut == t[1 + |c|..]
  {
  }

  /** The form as first shown, with a server public key typed in: the
      config holds these ten lines, the base64 secret key on the second. */
  lemma InitialInputsExample(raw: KeyPair, serverKey: string)
    requires '\n' !in serverKey
    ensures var lines := SplitLines(GenerateConfig(raw, InitialInputs.(serverPublicKey := serverKey)).config);
            |lines| == 10 &&
            lines[0] == "[Interface]" && lines[1] == "PrivateKey = " + Encode(raw.secretKey) &&
            lines[2] == "Address = 10.0.0.2/32" && lines[3] == "DNS = 1.1.1.1" &&
            lines[4] == "" && lines[5] == "[Peer]" && lines[6] == "PublicKey = " + serverKey &&
            lines[7] == "Endpoint = vpn.example.com:51820" && lines[8] == "AllowedIPs = 0.0.0.0/0" &&
            lines[9] == "PersistentKeepalive = 25"
  {
    var inputs := InitialInputs.(serverPublicKey := serverKey);
    InitialInputsSingleLine(serverKey);
    ConfigReadsAsLines(raw, inputs);
    InitialValueLines();
    InitialEndpointLine();
    InitialKeepaliveLine();
  }

  /** Proof helper for InitialInputsExample: the initial address, DNS and
      allowed-IPs values after their prefixes, as single literals. */
  lemma InitialValueLines()
    ensures "Address = " + InitialInputs.clientIp == "Address = 10.0.0.2/32"
    ensures "DNS = " + InitialInputs.dns == "DNS = 1.1.1.1"
    ensures "AllowedIPs = " + InitialInputs.allowedIps == "AllowedIPs = 0.0.0.0/0"
  {
  }

  /** Proof helper for InitialInputsExample: the initial endpoint after its
      prefix, as a single literal. */
  lemma InitialEndpointLine()
    ensures "Endpoint = " + InitialInputs.serverEndpoint == "Endpoint = vpn.example.com:51820"
  {
  }

  /** The initial keepalive, the number 25 shown as text, keeps its line
      intact through the trim. */
  lemma InitialKeepaliveLine()
    ensures KeepaliveLine(InitialInputs.persistentKeepalive) == "PersistentKeepalive = 25"
  {
    assert TrimEnd("25") == "25";
  }

  /** Proof helper for InitialInputsExample: the initial values hold no
      line feed. */
  lemma InitialInputsSingleLine(serverKey: string)
    requires '\n' !in serverKey
    ensures SingleLineInputs(InitialInputs.(serverPublicKey := serverKey))
  {
    assert '\n' !in "10.0.0.2/32";
    assert '\n' !in "vpn.example.com:51820";
    assert '\n' !in "0.0.0.0/0";
    assert '\n' !in "1.1.1.1";
    assert '\n' !in "25";
  }
}
