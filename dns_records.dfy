/**
 * The pure parts of the DNS records page script (assets/js/dns-records.js):
 * escapeHtml, which every cell of the records table goes through, and the
 * status toggleStatus asks the API for.
 */
module DnsRecords {
  import opened Wrappers
  import opened Text

  /** The five characters escapeHtml replaces. */
  predicate IsSpecial(c: char) {
    c == '&' || c == '<' || c == '>' || c == '"' || c == '\''
  }

  /** The replacement map: & < > " ' become &amp; &lt; &gt; &quot; &#039;. */
  function EscapeChar(c: char): (r: string)
    ensures IsSpecial(c) ==> |r| > 1 && r[0] == '&' && r[|r| - 1] == ';'
    ensures !IsSpecial(c) ==> r == [c]
  {
    if c == '&' then "&amp;"
    else if c == '<' then "&lt;"
    else if c == '>' then "&gt;"
    else if c == '"' then "&quot;"
    else if c == '\'' then "&#039;"
    else [c]
  }

  predicate NoMarkup(s: string) {
    forall i :: 0 <= i < |s| ==> s[i] != '<' && s[i] != '>' && s[i] != '"' && s[i] != '\''
  }

  predicate NoSpecial(s: string) {
    forall i :: 0 <= i < |s| ==> !IsSpecial(s[i])
  }

  /**
   * escapeHtml: null and undefined give ''; otherwise every special
   * character is replaced and everything else kept.  The result carries no
   * raw markup character, is never shorter than the input, and is exactly
   * as long when, and only when, there was nothing to replace.
   */
  function EscapeHtml(text: Option<string>): (r: string)
    ensures text.None? ==> r == ""
    ensures NoMarkup(r)
    ensures text.Some? ==> |r| >= |text.value|
    ensures text.Some? ==> (|r| == |text.value| <==> NoSpecial(text.value))
    ensures text.Some? && NoSpecial(text.value) ==> r == text.value
  {
    if text.None? then "" else Escape(text.value)
  }

  function Escape(s: string): (r: string)
    ensures NoMarkup(r)
    ensures |r| >= |s|
    ensures |r| == |s| <==> NoSpecial(s)
    ensures NoSpecial(s) ==> r == s
  {
    if |s| == 0 then ""
    else
      var head := EscapeChar(s[0]);
      var tail := Escape(s[1..]);
      assert NoSpecial(s) <==> !IsSpecial(s[0]) && NoSpecial(s[1..]) by {
        if !IsSpecial(s[0]) && NoSpecial(s[1..]) {
          forall i | 0 <= i < |s| ensures !IsSpecial(s[i]) {
            if i > 0 { assert s[i] == s[1..][i - 1]; }
          }
        }
      }
      head + tail
  }

  /** The decoder for the five entities, the inverse escapeHtml is written against. */
  function Unescape(s: string): string
    decreases |s|
  {
    if |s| == 0 then ""
    else if StartsWith(s, "&amp;") then "&" + Unescape(s[5..])
    else if StartsWith(s, "&lt;") then "<" + Unescape(s[4..])
    else if StartsWith(s, "&gt;") then ">" + Unescape(s[4..])
    else if StartsWith(s, "&quot;") then "\"" + Unescape(s[6..])
    else if StartsWith(s, "&#039;") then "'" + Unescape(s[6..])
    else [s[0]] + Unescape(s[1..])
  }

  lemma UnescapeChar(c: char, rest: string)
    ensures Unescape(EscapeChar(c) + rest) == [c] + Unescape(rest)
  {
    var e := EscapeChar(c);
    var s := e + rest;
    assert s[..|e|] == e && s[|e|..] == rest;
    if c == '&' {
      assert StartsWith(s, "&amp;");
    } else if c == '<' {
      assert !StartsWith(s, "&amp;") by { assert s[1] == 'l'; }
      assert StartsWith(s, "&lt;");
    } else if c == '>' {
      assert !StartsWith(s, "&amp;") && !StartsWith(s, "&lt;") by { assert s[1] == 'g'; }
      assert StartsWith(s, "&gt;");
    } else if c == '"' {
      assert !StartsWith(s, "&amp;") && !StartsWith(s, "&lt;") && !StartsWith(s, "&gt;") by { assert s[1] == 'q'; }
      assert StartsWith(s, "&quot;");
    } else if c == '\'' {
      assert !StartsWith(s, "&amp;") && !StartsWith(s, "&lt;") && !StartsWith(s, "&gt;")
        && !StartsWith(s, "&quot;") by { assert s[1] == '#'; }
      assert StartsWith(s, "&#039;");
    } else {
      assert s[0] == c && s[1..] == rest;
      assert !StartsWith(s, "&amp;") && !StartsWith(s, "&lt;") && !StartsWith(s, "&gt;")
        && !StartsWith(s, "&quot;") && !StartsWith(s, "&#039;") by { assert s[0] != '&'; }
    }
  }

  /** Nothing is lost: decoding the escaped text gives the text back. */
  lemma {:induction false} UnescapeEscape(s: string)
    ensures Unescape(Escape(s)) == s
    decreases |s|
  {
    if |s| > 0 {
      UnescapeChar(s[0], Escape(s[1..]));
      UnescapeEscape(s[1..]);
    }
  }

  /** toggleStatus: 'active' asks for 'disabled', and any other status asks for 'active'. */
  function ToggledStatus(current: string): (r: string)
    ensures r == "active" || r == "disabled"
    ensures r == "disabled" <==> current == "active"
  {
    if current == "active" then "disabled" else "active"
  }

  /** Toggling twice returns to the start exactly for the two statuses the button shows. */
  lemma ToggleTwice(current: string)
    ensures ToggledStatus(ToggledStatus(current)) == current <==> current == "active" || current == "disabled"
  {
  }

  /** The set_status request toggleStatus sends. */
  datatype StatusRequest = StatusRequest(id: int, status: string)

  function ToggleStatus(recordId: int, currentStatus: string): (r: StatusRequest)
    ensures r.id == recordId && r.status != currentStatus
    ensures r.status != "deleted"
  {
    StatusRequest(recordId, ToggledStatus(currentStatus))
  }
}
