# Simple-WebXR for Unity, modelled in Dafny

Simple-WebXR lets a Unity application compiled to WebGL run a WebXR session
in the browser. The browser side writes each frame into arrays it shares
with the C# side (views, input poses, buttons, hand joints, event bytes);
the C# `SimpleWebXR` component decodes those arrays into two input sources
and the camera rig, raises the select and squeeze events and the session
edges, and consumes the event bytes. This project models that binding in
its three variants:

- the package runtime (`com.rufus31415.simplewebxr`): one static binding
  with hit testing and a height offset, and its editor simulator, which
  plays the browser by writing a simulated session into the same arrays;
- the plugin: an instance-based binding with a smaller layout and its
  own inline editor simulation;
- the demo project's older binding, without hands or select state.

Around the binding it models the MRTK input device manager (the package's
provider and the MRTK sample's older copy), which turns the two input
sources into MRTK hand and controller devices, one per handedness; the
HoloLens 2 spectator-view server, which streams camera images over
WebSocket (opening handshake, unmasked binary frames out, masked frames in,
a 7-byte image header followed by chunks of at most 60000 bytes), and the
WebXR spectator client that reassembles those images; and the uHTTP layer
of the MRTK sample: request parsing, response serialisation, the static
file server and the Windows firewall helper.

Code that changes state step by step is modelled as classes whose methods
are proved against specification functions; the parsers, serialisers and
decoders are functions with lemmas: round trips, write-then-read of the
editor simulation, the exclusiveness of hand and controller devices, the
event order, and the agreement of the as-written WebSocket codec with
section 5.2 of RFC 6455 and where it departs from it. C# fixed-width
arithmetic (32-bit shifts with masked counts, signed 16-bit reads) is
written out explicitly. Calls into the browser and into MRTK are kept as
event logs in the order they are made.

## Model

| member | source | states |
|---|---|---|
| WebSocketFrame.OpcodeValue | Assets/SimpleWebXR/Examples/Scripts/SpectatorViewHololens2Server/SpectatorViewHololens2Server.cs:356-364 | every opcode the server names fits in the four opcode bits of the first byte |
| WebSocketFrame.StopsStreamingOpcodes | Assets/SimpleWebXR/Examples/Scripts/SpectatorViewHololens2Server/SpectatorViewHololens2Server.cs:89 | the close test is a bit test: a frame with opcode Close, Ping or Pong stops streaming, with or without FIN, and no other named opcode does |
| WebSocketFrame.EncodeFrameAsWritten | Assets/SimpleWebXR/Examples/Scripts/SpectatorViewHololens2Server/SpectatorViewHololens2Server.cs:373-410 | the frame built is the 2-, 4- or 10-byte header, starting 0x82 with no mask bit, followed by the payload unchanged |
| WebSocketFrame.EncodeFrame | Assets/SimpleWebXR/Examples/Scripts/SpectatorViewHololens2Server/SpectatorViewHololens2Server.cs:373-410 | the frame section 5.2 of RFC 6455 prescribes has the same header size, first byte and unmasked length byte, followed by the payload unchanged |
| WebSocketFrame.EncodeFrameAsWrittenLayout | Assets/SimpleWebXR/Examples/Scripts/SpectatorViewHololens2Server/SpectatorViewHololens2Server.cs:373-410 | the frame starts 0x82, byte 1 has no mask bit, the header is 2, 4 or 10 bytes by payload size, the payload follows unchanged; 7-bit length below 126, 126 and a 16-bit big-endian length up to 65535, else 127 with the 32-bit length in bytes 6-9 and bytes 2-5 repeating them |
| WebSocketFrame.EncodersAgreeUpTo65535 | Assets/SimpleWebXR/Examples/Scripts/SpectatorViewHololens2Server/SpectatorViewHololens2Server.cs:378-391 | up to 65535 payload bytes the frame built is exactly the one section 5.2 of RFC 6455 prescribes |
| WebSocketFrame.EncodeFrameAsWrittenRoundTrip | Assets/SimpleWebXR/Examples/Scripts/SpectatorViewHololens2Server/SpectatorViewHololens2Server.cs:378-391 | frames of up to 65535 payload bytes are read back to their payload by an RFC 6455 reader |
| WebSocketFrame.EncodeFrameAsWrittenLongMisread | Assets/SimpleWebXR/Examples/Scripts/SpectatorViewHololens2Server/SpectatorViewHololens2Server.cs:392-405 | above 65535 bytes the 64-bit length written is length * 2^32 + length, so an RFC 6455 reader cannot recover the payload |
| WebSocketFrame.EncodeFrameRoundTrip | Assets/SimpleWebXR/Examples/Scripts/SpectatorViewHololens2Server/SpectatorViewHololens2Server.cs:373-410 | the frame with a zero-filled 64-bit length, as section 5.2 of RFC 6455 intends, is read back to its payload for every length |
| WebSocketFrame.CreateFrameFromByte | Assets/SimpleWebXR/Examples/Scripts/SpectatorViewHololens2Server/SpectatorViewHololens2Server.cs:373-410 | the method fills a fresh array with exactly the frame around payload[start..start+length] |
| WebSocketFrame.CreateFrameFromString | Assets/SimpleWebXR/Examples/Scripts/SpectatorViewHololens2Server/SpectatorViewHololens2Server.cs:366-371 | the frame carries the UTF-8 bytes of the message |
| WebSocketFrame.Unmask | Assets/SimpleWebXR/Examples/Scripts/SpectatorViewHololens2Server/SpectatorViewHololens2Server.cs:348-351 | the result has the length of the data and byte i is data[i] XOR key[i mod 4] |
| WebSocketFrame.UnmaskInvolution | Assets/SimpleWebXR/Examples/Scripts/SpectatorViewHololens2Server/SpectatorViewHololens2Server.cs:348-351 | unmasking twice with the same key gives the data back |
| WebSocketFrame.UnmaskLoop | Assets/SimpleWebXR/Examples/Scripts/SpectatorViewHololens2Server/SpectatorViewHololens2Server.cs:348-351 | the in-place loop leaves the array equal to the unmasked original |
| WebSocketFrame.KeyStart | Assets/SimpleWebXR/Examples/Scripts/SpectatorViewHololens2Server/SpectatorViewHololens2Server.cs:310-335 | the masking key starts at offset 2, 4 or 10 |
| WebSocketFrame.ReadHeader | Assets/SimpleWebXR/Examples/Scripts/SpectatorViewHololens2Server/SpectatorViewHololens2Server.cs:310-335 | the header is readable exactly when its length bytes are in the buffer, and then the key offset and the signed length are those of the 7-, 16- or 64-bit form |
| WebSocketFrame.Decode | Assets/SimpleWebXR/Examples/Scripts/SpectatorViewHololens2Server/SpectatorViewHololens2Server.cs:304-354 | a header beyond the buffer is an index error; a decoded payload has the declared length, lies after the key inside the buffer, and masked again with the key gives back the bytes on the wire |
| WebSocketFrame.DecodeFrame | Assets/SimpleWebXR/Examples/Scripts/SpectatorViewHololens2Server/SpectatorViewHololens2Server.cs:304-354 | the payload read lies within the buffer, and one announced in the 16-bit form is shorter than 32768 bytes, since the 16-bit length is read signed |
| WebSocketFrame.DecodeSucceedsIff | Assets/SimpleWebXR/Examples/Scripts/SpectatorViewHololens2Server/SpectatorViewHololens2Server.cs:337-347 | decoding succeeds exactly when the header is readable, the declared length is not negative and key plus payload fit in the buffer; the payload then has the declared length and is the unmasked data after the key |
| WebSocketFrame.DecodeWellFormed | Assets/SimpleWebXR/Examples/Scripts/SpectatorViewHololens2Server/SpectatorViewHololens2Server.cs:342-351 | a frame whose declared payload fits decodes to the unmasked bytes after the key |
| WebSocketFrame.ParsePayloadFromFrame | Assets/SimpleWebXR/Examples/Scripts/SpectatorViewHololens2Server/SpectatorViewHololens2Server.cs:304-354 | the method returns a fresh array holding the decoded payload, or the error the decoder gives |
| WebSocketFrame.DecodeFrameRoundTrip | Assets/SimpleWebXR/Examples/Scripts/SpectatorViewHololens2Server/SpectatorViewHololens2Server.cs:304-354 | a client frame masked with any key decodes to its payload, whatever follows it in the buffer, for payloads below 32768 or above 65535 bytes |
| WebSocketFrame.DecodeFrameRejectsMidSizedFrames | Assets/SimpleWebXR/Examples/Scripts/SpectatorViewHololens2Server/SpectatorViewHololens2Server.cs:321-326 | a correctly masked frame of 32768 to 65535 bytes is rejected, because the 16-bit length is read as signed |
| WebSocketFrame.DecodeFrameCorrectedRoundTrip | Assets/SimpleWebXR/Examples/Scripts/SpectatorViewHololens2Server/SpectatorViewHololens2Server.cs:321-326 | with the unsigned 16-bit read of section 5.2 of RFC 6455, every masked client frame decodes to its payload |
| SpectatorImage.ImageHeader | Assets/SimpleWebXR/Examples/Scripts/SpectatorViewHololens2Server/SpectatorViewHololens2Server.cs:281 | the header is seven bytes, the magic first, with a top length byte below 128 for any C# array length |
| SpectatorImage.ImageHeaderLayout | Assets/SimpleWebXR/Examples/Scripts/SpectatorViewHololens2Server/SpectatorViewHololens2Server.cs:281 | the image header is 7 bytes: the magic 0x12 0x06 0x92, then the image length in little-endian order |
| SpectatorImage.ChunkBounds | Assets/SimpleWebXR/Examples/Scripts/SpectatorViewHololens2Server/SpectatorViewHololens2Server.cs:284-288 | every chunk holds 1 to 60000 bytes and lies inside the image; only the last chunk may be shorter |
| SpectatorImage.Chunks | Assets/SimpleWebXR/Examples/Scripts/SpectatorViewHololens2Server/SpectatorViewHololens2Server.cs:284-290 | one chunk per frame, ceil(length / 60000) of them |
| SpectatorImage.ChunkSizes | Assets/SimpleWebXR/Examples/Scripts/SpectatorViewHololens2Server/SpectatorViewHololens2Server.cs:284-290 | every chunk sent has between 1 and 60000 bytes |
| SpectatorImage.EmptyImageHasNoChunks | Assets/SimpleWebXR/Examples/Scripts/SpectatorViewHololens2Server/SpectatorViewHololens2Server.cs:284-290 | an image gets no chunk frames exactly when it is empty |
| SpectatorImage.ChunksConcat | Assets/SimpleWebXR/Examples/Scripts/SpectatorViewHololens2Server/SpectatorViewHololens2Server.cs:284-290 | the chunks concatenate back to the image |
| SpectatorImage.ImageFrames | Assets/SimpleWebXR/Examples/Scripts/SpectatorViewHololens2Server/SpectatorViewHololens2Server.cs:279-291 | one header frame followed by one frame per chunk |
| SpectatorImage.ImageFramesConform | Assets/SimpleWebXR/Examples/Scripts/SpectatorViewHololens2Server/SpectatorViewHololens2Server.cs:279-291 | the header frame carries the image header and frame i+1 carries chunk i, each framed as section 5.2 of RFC 6455 says |
| SpectatorImage.SendImage | Assets/SimpleWebXR/Examples/Scripts/SpectatorViewHololens2Server/SpectatorViewHololens2Server.cs:279-291 | the frames the loop sends are exactly the header frame and then the chunk frames, in order |
| SpectatorImage.NewImageHeader | Assets/SimpleWebXR/Examples/Scripts/SpectatorViewHololens2Server/SpectatorViewHololens2Server.cs:281 | the array is fresh and holds the image header of that length |
| WebSocketHandshake.RestOfLine | Assets/SimpleWebXR/Examples/Scripts/SpectatorViewHololens2Server/SpectatorViewHololens2Server.cs:67 | the key is the prefix of the text after the header name up to, and not including, the first line feed |
| WebSocketHandshake.WebSocketKey | Assets/SimpleWebXR/Examples/Scripts/SpectatorViewHololens2Server/SpectatorViewHololens2Server.cs:67 | the key is empty when the request has no Sec-WebSocket-Key header, holds no line feed, and neither starts nor ends with white space |
| Text.Trim | Assets/SimpleWebXR/Examples/Scripts/SpectatorViewHololens2Server/SpectatorViewHololens2Server.cs:67 | the trimmed text neither starts nor ends with white space and holds only characters of the original |
| WebSocketHandshake.WebSocketKeyOfLine | Assets/SimpleWebXR/Examples/Scripts/SpectatorViewHololens2Server/SpectatorViewHololens2Server.cs:67 | a request carrying a Sec-WebSocket-Key line yields the key on that line, without the white space around it |
| WebSocketHandshake.WebSocketKeyAbsent | Assets/SimpleWebXR/Examples/Scripts/SpectatorViewHololens2Server/SpectatorViewHololens2Server.cs:67 | a request without a Sec-WebSocket-Key header yields the empty key |
| WebSocketHandshake.Base64 | Assets/SimpleWebXR/Examples/Scripts/SpectatorViewHololens2Server/SpectatorViewHololens2Server.cs:75 | the Base64 text of RFC 4648 is 4 characters per started group of 3 bytes |
| WebSocketHandshake.Base64RoundTrip | Assets/SimpleWebXR/Examples/Scripts/SpectatorViewHololens2Server/SpectatorViewHololens2Server.cs:75 | decoding the Base64 text of any bytes gives those bytes back |
| WebSocketHandshake.HandshakeResponse | Assets/SimpleWebXR/Examples/Scripts/SpectatorViewHololens2Server/SpectatorViewHololens2Server.cs:65-80 | a reply exists exactly for a request starting with GET; it opens with the 101 status line, ends with the empty line, and carries the accept value between the fixed headers and that line |
| WebSocketHandshake.HandshakeResponseShape | Assets/SimpleWebXR/Examples/Scripts/SpectatorViewHololens2Server/SpectatorViewHololens2Server.cs:65-80 | a response is sent exactly for a request starting with GET, and its accept value is 28 characters for a 20-byte SHA-1 digest |
| WebSocketHandshake.SampleAcceptValue | Assets/SimpleWebXR/Examples/Scripts/SpectatorViewHololens2Server/SpectatorViewHololens2Server.cs:68-75 | the digest of the sample key of section 1.3 of RFC 6455 becomes the accept value s3pPLMBiTxaQ9kYGzzhZRbK+xOo= |
| SpectatorClient.HeaderLength | Assets/SimpleWebXR/Scripts/SpectatorViewWebXRClient/SpectatorViewWebXRClient.cs:60 | the length read from a header is a C# int: the top byte shifted 24 bits may make it negative |
| SpectatorClient.HeaderLengthInverts | Assets/SimpleWebXR/Scripts/SpectatorViewWebXRClient/SpectatorViewWebXRClient.cs:58-60 | the server's header for any length up to 2^31-1 is recognised as a header and read back to that length |
| SpectatorClient.HeaderLengthNegative | Assets/SimpleWebXR/Scripts/SpectatorViewWebXRClient/SpectatorViewWebXRClient.cs:60-63 | a header whose last byte is 128 or more gives a negative length, which the buffer allocation rejects |
| SpectatorClient.Zeros | Assets/SimpleWebXR/Scripts/SpectatorViewWebXRClient/SpectatorViewWebXRClient.cs:63 | a new buffer has the declared length |
| SpectatorClient.Receive | Assets/SimpleWebXR/Scripts/SpectatorViewWebXRClient/SpectatorViewWebXRClient.cs:54-82 | a message keeps the write index within the buffer, changes the published image only to a buffer filled to its end, and a header never publishes |
| SpectatorClient.ReceiveValid | Assets/SimpleWebXR/Scripts/SpectatorViewWebXRClient/SpectatorViewWebXRClient.cs:56-82 | every message keeps the write index within the buffer |
| SpectatorClient.ReceivePublishesOnlyFullBuffers | Assets/SimpleWebXR/Scripts/SpectatorViewWebXRClient/SpectatorViewWebXRClient.cs:68-81 | the image is published only as a buffer filled to its end; a chunk that arrives before any header or overflows the buffer changes nothing |
| SpectatorClient.ReceiveChunk | Assets/SimpleWebXR/Scripts/SpectatorViewWebXRClient/SpectatorViewWebXRClient.cs:66-76 | a chunk is copied at the write index, which advances by its length, and the image is published when the index reaches the end |
| SpectatorClient.ReceiveHeader | Assets/SimpleWebXR/Scripts/SpectatorViewWebXRClient/SpectatorViewWebXRClient.cs:58-65 | a header allocates a fresh zeroed buffer of the declared length and resets the index, leaving the published image as it was |
| SpectatorClient.Reassembles | Assets/SimpleWebXR/Scripts/SpectatorViewWebXRClient/SpectatorViewWebXRClient.cs:58-75 | the server's header followed by its chunks publishes exactly the image, provided no chunk looks like a header |
| SpectatorClient.EmptyImageNotPublished | Assets/SimpleWebXR/Scripts/SpectatorViewWebXRClient/SpectatorViewWebXRClient.cs:71-75 | a zero-length image allocates an empty buffer and is never published, since no chunk follows |
| SpectatorClient.SpectatorViewClient.constructor | Assets/SimpleWebXR/Scripts/SpectatorViewWebXRClient/SpectatorViewWebXRClient.cs:100-106 | a new client has no buffer, no image, follow mode on and the fps ring at index 0 |
| SpectatorClient.SpectatorViewClient.OnMessage | Assets/SimpleWebXR/Scripts/SpectatorViewWebXRClient/SpectatorViewWebXRClient.cs:54-82 | the handler changes the buffer, index and published image exactly as the reassembly function says and nothing else |
| SpectatorClient.SpectatorViewClient.PresentImage | Assets/SimpleWebXR/Scripts/SpectatorViewWebXRClient/SpectatorViewWebXRClient.cs:123-141 | an available image is consumed: the frame time goes into slot iDeltaT, the index moves on modulo 4 and the clock restarts; with no image nothing changes |
| SpectatorClient.SpectatorViewClient.Translate | Assets/SimpleWebXR/Scripts/SpectatorViewWebXRClient/SpectatorViewWebXRClient.cs:303-310 | a non-zero move leaves follow mode and moves the camera; an all-zero move changes nothing |
| SpectatorClient.SpectatorViewClient.Rotate | Assets/SimpleWebXR/Scripts/SpectatorViewWebXRClient/SpectatorViewWebXRClient.cs:312-319 | a non-zero rotation leaves follow mode and rotates the camera by (-rx, ry, 0); an all-zero one changes nothing |
| SpectatorClient.SpectatorViewClient.StartFollow | Assets/SimpleWebXR/Scripts/SpectatorViewWebXRClient/SpectatorViewWebXRClient.cs:171-174 | the follow button turns follow mode on and changes nothing else |
| Http.StatusCodeTable | Samples/MRTK/Assets/SimpleWebXR/Scripts/uHTTP/uHTTP.cs:9-13 | the four status codes are 101, 200, 404 and 500, each paired with its own reason phrase |
| Http.CodeInjective | Samples/MRTK/Assets/SimpleWebXR/Scripts/uHTTP/uHTTP.cs:9-21 | two status codes are the same exactly when their numbers are |
| Http.CodeTextDecimal | Samples/MRTK/Assets/SimpleWebXR/Scripts/uHTTP/uHTTP.cs:15 | the three digits written in a status line are the decimal form of the code |
| HttpRequest.ParseRequest | Samples/MRTK/Assets/SimpleWebXR/Scripts/uHTTP/uHTTP.Request.cs:22-51 | the text is not HTTP exactly when its first line fails the request-line pattern, and a parsed request never holds a header key twice |
| HttpRequest.TryParse | Samples/MRTK/Assets/SimpleWebXR/Scripts/uHTTP/uHTTP.Request.cs:22-51 | the loop over the lines yields exactly the outcome of the parse function: null, a request, or the exception thrown |
| HttpRequest.ParseLineLoop | Samples/MRTK/Assets/SimpleWebXR/Scripts/uHTTP/uHTTP.Request.cs:34-48 | the for loop over the lines after the request line ends with exactly the headers and body the line-by-line parse gives, or stops with the exception of the first header line without ": " or with a repeated key |
| HttpRequest.BodyPhase | Samples/MRTK/Assets/SimpleWebXR/Scripts/uHTTP/uHTTP.Request.cs:35-43 | after the first empty line, the non-empty lines are joined by CRLF and appended to the body; further empty lines are skipped |
| HttpRequest.HeaderPhase | Samples/MRTK/Assets/SimpleWebXR/Scripts/uHTTP/uHTTP.Request.cs:44-47 | the header lines are added in order as long as each has a separator and a new key; otherwise parsing throws |
| HttpRequest.HeaderStepMissing | Samples/MRTK/Assets/SimpleWebXR/Scripts/uHTTP/uHTTP.Request.cs:45-46 | a header line without ": " throws, since the value index is out of range |
| HttpRequest.HeaderStepDuplicate | Samples/MRTK/Assets/SimpleWebXR/Scripts/uHTTP/uHTTP.Request.cs:46 | a header whose key is already present throws, since Dictionary.Add rejects duplicate keys |
| HttpRequest.HeaderStepFresh | Samples/MRTK/Assets/SimpleWebXR/Scripts/uHTTP/uHTTP.Request.cs:45-46 | a header line with a separator and a new key is added and parsing goes on with the next line |
| HttpRequest.ParseShape | Samples/MRTK/Assets/SimpleWebXR/Scripts/uHTTP/uHTTP.Request.cs:22-51 | null exactly when the first line does not match; an exception exactly when it matches but the header lines are malformed or repeat a key; otherwise the headers are the lines before the first empty line and the body is what follows |
| HttpRequest.ParseLinesShape | Samples/MRTK/Assets/SimpleWebXR/Scripts/uHTTP/uHTTP.Request.cs:34-48 | the loop succeeds exactly when the lines before the first empty one are well-formed headers with distinct keys, and then returns those headers and the body after them |
| HttpRequest.NoEmptyLineNoBody | Samples/MRTK/Assets/SimpleWebXR/Scripts/uHTTP/uHTTP.Request.cs:34-48 | a request without an empty line has an empty body and one header per line after the first |
| HttpRequest.FormatRequestRoundTrip | Samples/MRTK/Assets/SimpleWebXR/Scripts/uHTTP/uHTTP.Request.cs:22-51 | a request written as request line, headers, empty line and body lines parses back to the same method, URL and headers, with the non-empty body lines as body |
| HttpRequest.ParseOfLines | Samples/MRTK/Assets/SimpleWebXR/Scripts/uHTTP/uHTTP.Request.cs:23-48 | any text that cuts into such lines at CRLF parses back to that request |
| HttpRequest.FormatRequestShape | Samples/MRTK/Assets/SimpleWebXR/Scripts/uHTTP/uHTTP.Request.cs:23 | the written request cuts at CRLF into exactly its request line, header lines, empty line and body lines |
| HttpRequest.HeaderLineParses | Samples/MRTK/Assets/SimpleWebXR/Scripts/uHTTP/uHTTP.Request.cs:45-46 | a header written as "key: value" with no separator inside is read back as the same key and value |
| HttpRequest.HeaderListOfLines | Samples/MRTK/Assets/SimpleWebXR/Scripts/uHTTP/uHTTP.Request.cs:44-47 | a list of such headers written line by line reads back as the same list |
| HttpRequest.RequestLineMatchesFormat | Samples/MRTK/Assets/SimpleWebXR/Scripts/uHTTP/uHTTP.Request.cs:25 | a request line whose method ends in a character of the class and whose URL starts with "/" matches the pattern |
| HttpRequest.RequestLineSplit | Samples/MRTK/Assets/SimpleWebXR/Scripts/uHTTP/uHTTP.Request.cs:31-32 | the method and the URL are the first two space-separated fields of such a line |
| HttpRequest.MatchHasTwoFields | Samples/MRTK/Assets/SimpleWebXR/Scripts/uHTTP/uHTTP.Request.cs:25-32 | a line that matches the pattern has at least two space-separated fields, so reading the URL never fails |
| HttpRequest.GetRequestAccepted | Samples/MRTK/Assets/SimpleWebXR/Scripts/uHTTP/uHTTP.Request.cs:25 | "GET /index.html HTTP/1.1" matches the pattern |
| HttpRequest.OptionsRequestAccepted | Samples/MRTK/Assets/SimpleWebXR/Scripts/uHTTP/uHTTP.Request.cs:25 | "OPTIONS / HTTP/1.1" matches too, because the pattern's first part is a character class that looks at one character |
| HttpResponse.Response.constructor | Samples/MRTK/Assets/SimpleWebXR/Scripts/uHTTP/uHTTP.Response.cs:28-33 | a new response has the given status, no headers and an empty body |
| HttpResponse.Response.AddHeader | Samples/MRTK/Assets/SimpleWebXR/Scripts/uHTTP/uHTTP.Response.cs:12-13 | a header is appended exactly when its key is new; a repeated key is rejected, as Dictionary.Add does by throwing |
| HttpResponse.Response.SetBody | Samples/MRTK/Assets/SimpleWebXR/Scripts/uHTTP/uHTTP.Response.cs:26 | setting the body replaces it and keeps the headers |
| HttpResponse.Response.ToBinary | Samples/MRTK/Assets/SimpleWebXR/Scripts/uHTTP/uHTTP.Response.cs:35-53 | the bytes are the UTF-8 encoding of the status line, the CRLF-separated headers and the blank line, followed by the body |
| HttpResponse.Response.HeadText | Samples/MRTK/Assets/SimpleWebXR/Scripts/uHTTP/uHTTP.Response.cs:36-46 | the head built by the string builder is the status line, each header after a CRLF, then two CRLFs |
| HttpResponse.Concatenate | Samples/MRTK/Assets/SimpleWebXR/Scripts/uHTTP/uHTTP.Response.cs:49-51 | the two copies give the head bytes followed by the body bytes |
| HttpResponse.Default | Samples/MRTK/Assets/SimpleWebXR/Scripts/uHTTP/uHTTP.Response.cs:9-17 | the default response is 200 OK with Connection: Closed and Content-Type: text/html and the UTF-8 greeting as body |
| HttpResponse.Head | Samples/MRTK/Assets/SimpleWebXR/Scripts/uHTTP/uHTTP.Response.cs:36-46 | the head begins with the status line and ends with CRLF CRLF |
| HttpResponse.HeadIsJoin | Samples/MRTK/Assets/SimpleWebXR/Scripts/uHTTP/uHTTP.Response.cs:36-46 | the head is the status line and header lines joined by CRLF, ending in an empty line |
| HttpResponse.HeadReadsBack | Samples/MRTK/Assets/SimpleWebXR/Scripts/uHTTP/uHTTP.Response.cs:36-46 | cutting the head at CRLF gives back the status line, the header lines and the blank line, and the header lines read back as the same headers |
| HttpResponse.OkHead | Samples/MRTK/Assets/SimpleWebXR/Scripts/uHTTP/uHTTP.Response.cs:36-46 | a 200 response without headers has the head "HTTP/1.1 200 OK" followed by two CRLFs |
| HttpResponse.AsciiOutputLength | Samples/MRTK/Assets/SimpleWebXR/Scripts/uHTTP/uHTTP.Response.cs:48-51 | for an ASCII head the output is one byte per head character and the body starts right after it |
| StaticWebServer.RootShape | Samples/MRTK/Assets/SimpleWebXR/Scripts/uHTTP/StaticWebServer.cs:55-64 | the root is the streaming-assets path joined to the root folder with "/" (with no separator when there is no folder), minus one trailing "/" |
| StaticWebServer.RootWithFolder | Samples/MRTK/Assets/SimpleWebXR/Scripts/uHTTP/StaticWebServer.cs:57-58 | with a folder that does not end in "/", the root is the streaming-assets path, "/", then the folder |
| StaticWebServer.FirstIndex | Samples/MRTK/Assets/SimpleWebXR/Scripts/uHTTP/StaticWebServer.cs:67-72 | the first file whose lower-cased name up to the first "." is "index", or none when no file is |
| StaticWebServer.GetIndexFile | Samples/MRTK/Assets/SimpleWebXR/Scripts/uHTTP/StaticWebServer.cs:66-73 | a missing folder is an error; otherwise the scan returns the first index file of its listing, or null |
| StaticWebServer.CreateResponse | Samples/MRTK/Assets/SimpleWebXR/Scripts/uHTTP/StaticWebServer.cs:18-25 | the response carries the status and Connection: Closed, and the file's bytes when a file is named; a named file that does not exist is an error |
| StaticWebServer.Route | Samples/MRTK/Assets/SimpleWebXR/Scripts/uHTTP/StaticWebServer.cs:75-87 | the status is 200, 404 or 500; a 200 reply answers a GET with Connection: Closed and the bytes of a stored file; errors arise only for GET |
| StaticWebServer.OnRequest | Samples/MRTK/Assets/SimpleWebXR/Scripts/uHTTP/StaticWebServer.cs:75-87 | the handler returns the response the routing function describes, or fails with the same error |
| StaticWebServer.NonGetIsError | Samples/MRTK/Assets/SimpleWebXR/Scripts/uHTTP/StaticWebServer.cs:76-78 | any method other than GET, in any case, gives a bare 500 response |
| StaticWebServer.GetOutcome | Samples/MRTK/Assets/SimpleWebXR/Scripts/uHTTP/StaticWebServer.cs:79-86 | a GET of an existing file gives 200 with its bytes; otherwise 404 with the configured page, or an error when that page is missing too |
| StaticWebServer.ResolvedExtendsRequested | Samples/MRTK/Assets/SimpleWebXR/Scripts/uHTTP/StaticWebServer.cs:79-82 | the file looked up is the requested path itself, or for a folder path that path followed by its index file's name |
| StaticWebServer.FolderIndex | Samples/MRTK/Assets/SimpleWebXR/Scripts/uHTTP/StaticWebServer.cs:80-82 | a folder path gets its index file's name appended, or stays as it is (appending null) when it has none |
| StaticWebServer.QueryIgnored | Samples/MRTK/Assets/SimpleWebXR/Scripts/uHTTP/StaticWebServer.cs:79 | everything from the first "?" of the URL is ignored |
| Firewall.RuleName | Samples/MRTK/Assets/SimpleWebXR/Scripts/uHTTP/Firewall.cs:35-39 | lower-casing the rule name changes nothing |
| Firewall.RuleNameIsFileName | Samples/MRTK/Assets/SimpleWebXR/Scripts/uHTTP/Firewall.cs:35-39 | the rule name holds no backslash and no upper-case ASCII letter |
| Firewall.RuleNameOfPath | Samples/MRTK/Assets/SimpleWebXR/Scripts/uHTTP/Firewall.cs:37 | the rule name of a program path is its lower-cased file name |
| Firewall.UpdateAppRule | Samples/MRTK/Assets/SimpleWebXR/Scripts/uHTTP/Firewall.cs:46-52 | the update runs netsh with the text of the format string, the rule name in place of its placeholder; for a name without quotes, splitting the text at its quotes gives netsh back exactly the rule name and the profile list |
| Firewall.GetAppRules | Samples/MRTK/Assets/SimpleWebXR/Scripts/uHTTP/Firewall.cs:62-65 | the query runs netsh with the text of the format string, the rule name in place of its placeholder; for a name without quotes, the one quoted field is the rule name |
| Firewall.UpdateArgumentsFields | Samples/MRTK/Assets/SimpleWebXR/Scripts/uHTTP/Firewall.cs:47-50 | the set-rule arguments quote exactly the rule name and the profile list |
| Firewall.ShowArgumentsFields | Samples/MRTK/Assets/SimpleWebXR/Scripts/uHTTP/Firewall.cs:63 | the show-rule arguments quote exactly the rule name |
| Firewall.DoesAppRestrictionExist | Samples/MRTK/Assets/SimpleWebXR/Scripts/uHTTP/Firewall.cs:54-60 | a restriction exists exactly when some line of the output blocks the program or names a profile list other than Domain,Private,Public |
| Firewall.RestrictionOfAppend | Samples/MRTK/Assets/SimpleWebXR/Scripts/uHTTP/Firewall.cs:56-59 | the output of two parts joined by a newline is restricting exactly when one of the parts is |
| Firewall.BlockingLine | Samples/MRTK/Assets/SimpleWebXR/Scripts/uHTTP/Firewall.cs:56 | a line holding "Action:", white space, then "Block" is a restriction |
| Firewall.QuietLine | Samples/MRTK/Assets/SimpleWebXR/Scripts/uHTTP/Firewall.cs:56-59 | a line without "Block" whose profile list, if any, is Domain,Private,Public is not a restriction |
| Firewall.BlockAcrossLinesIgnored | Samples/MRTK/Assets/SimpleWebXR/Scripts/uHTTP/Firewall.cs:56 | "Action:" and "Block" on two different lines are not a restriction, since the pattern is tried line by line |
| Text.SplitOn | Samples/MRTK/Assets/SimpleWebXR/Scripts/uHTTP/uHTTP.Request.cs:23 | splitting at a separator gives at least one piece, no piece holds the separator, and joining the pieces with it gives back the text |
| Text.SplitJoin | Samples/MRTK/Assets/SimpleWebXR/Scripts/uHTTP/uHTTP.Request.cs:23 | lines without the separator, joined with it, split back into the same lines |
| Text.Utf8Append | Samples/MRTK/Assets/SimpleWebXR/Scripts/uHTTP/uHTTP.Response.cs:48 | the UTF-8 encoding of two joined texts is the two encodings joined |
| Text.Utf8Ascii | Samples/MRTK/Assets/SimpleWebXR/Scripts/uHTTP/uHTTP.Response.cs:48 | an ASCII text is encoded as one byte per character, equal to its code |
| Text.UpperOfLower | Samples/MRTK/Assets/SimpleWebXR/Scripts/uHTTP/StaticWebServer.cs:76 | upper-casing a lower-cased text gives the same as upper-casing it directly |
| ArrayCopy.Copy | Assets/SimpleWebXR/Scripts/SpectatorViewWebXRClient/SpectatorViewWebXRClient.cs:68 | the copy overwrites exactly n bytes of the destination, from the destination index on, with the source's bytes from the source index on |
| Bytes.BigEndianRoundTrip | Assets/SimpleWebXR/Examples/Scripts/SpectatorViewHololens2Server/SpectatorViewHololens2Server.cs:386-402 | writing a number below 256^n as n big-endian bytes and reading them back gives the number |
| Bytes.XorInvolution | Assets/SimpleWebXR/Examples/Scripts/SpectatorViewHololens2Server/SpectatorViewHololens2Server.cs:348-351 | XOR with the same mask byte twice gives back the byte |
| XrShared.NewInputSource | com.rufus31415.simplewebxr/Runtime/Scripts/SimpleWebXR.cs:1020-1024 | a new input source has the given hand, eight axes and eight buttons, twenty-five joints, and is neither available, selected, squeezed nor holding a hand |
| XrShared.EventType.Flag | com.rufus31415.simplewebxr/Runtime/Scripts/SimpleWebXR.cs:798-808 | each event type is a distinct single bit of the event mask |
| XrShared.RaiseAllIsEventState | com.rufus31415.simplewebxr/Runtime/Scripts/SimpleWebXR.cs:638-648 | the six event types tried in the source's order leave the input in the state the mask gives it; a zero mask leaves it as it was |
| XrShared.InputEventsExact | com.rufus31415.simplewebxr/Runtime/Scripts/SimpleWebXR.cs:685-709 | an input event of a type is raised exactly when the mask has that type's bit |
| XrShared.InputEventsShape | com.rufus31415.simplewebxr/Runtime/Scripts/SimpleWebXR.cs:638-646 | the events raised for one input are input events of its hand, at most six |
| XrShared.EndBeforeStart | com.rufus31415.simplewebxr/Runtime/Scripts/SimpleWebXR.cs:640-645 | when a mask ends and starts a selection (or a squeeze) in one frame, the end is raised before the start |
| XrShared.SessionEdgeExact | com.rufus31415.simplewebxr/Runtime/Scripts/SimpleWebXR.cs:376-386 | SessionStart is raised exactly on the frame a session appears and SessionEnd exactly on the frame it goes, and at most one of them |
| XrShared.RotationInvolution | com.rufus31415.simplewebxr/Runtime/Scripts/SimpleWebXR.cs:737-740 | converting a rotation twice gives it back |
| XrShared.PositionRoundTrip | com.rufus31415.simplewebxr/Runtime/Scripts/SimpleWebXR.cs:724-734 | with no height offset, converting a position whose z is negated gives back the position |
| XrShared.LayoutBounds | com.rufus31415.simplewebxr/Runtime/Scripts/SimpleWebXR.cs:431-483 | every per-hand float, byte and joint index lies inside its array, and the left and right blocks do not overlap |
| XrShared.DecodeAxes | com.rufus31415.simplewebxr/Runtime/Scripts/SimpleWebXR.cs:652-656 | the eight axes are the eight floats after the input's pose |
| XrShared.DecodeButtons | com.rufus31415.simplewebxr/Runtime/Scripts/SimpleWebXR.cs:658-665 | each button takes its value from the floats after the axes and its touched and pressed flags from the input's byte block |
| XrShared.DecodeJoints | com.rufus31415.simplewebxr/Runtime/Scripts/SimpleWebXR.cs:670-680 | each of the twenty-five joints is read from its own eight floats of the hand's half of the hand data |
| XrShared.DecodeInputFields | com.rufus31415.simplewebxr/Runtime/Scripts/SimpleWebXR.cs:627-681 | an updated input keeps its hand and availability, takes its axes, buttons and hand flag from the arrays, keeps its old joints when no hand is tracked, and is selected exactly when the mask starts a selection or it was selected and the mask does not end it |
| XrShared.DecodeInputFrame | com.rufus31415.simplewebxr/Runtime/Scripts/SimpleWebXR.cs:627-681 | the update of an input depends only on its own event byte, its own byte block and its own hand byte |
| XrShared.DecodeView | com.rufus31415.simplewebxr/Runtime/Scripts/SimpleWebXR.cs:581-619 | the projection matrix is the transpose of the sixteen floats of the view, and the viewport comes from the four floats after the pose |
| XrShared.CameraFor | com.rufus31415.simplewebxr/Runtime/Scripts/SimpleWebXR.cs:514-542 | an eye has no camera exactly when the view-count byte lacks its bit |
| XrShared.Cameras | com.rufus31415.simplewebxr/Runtime/Scripts/SimpleWebXR.cs:514-542 | no view gives no camera; one view gives a left camera only |
| XrShared.TwoEyes | com.rufus31415.simplewebxr/Runtime/Scripts/SimpleWebXR.cs:585-596 | with two views, the right camera is active when its viewport differs from the left one's and disabled when they are equal |
| XrDecoder.RaiseInputSourceEvent | com.rufus31415.simplewebxr/Runtime/Scripts/SimpleWebXR.cs:685-710 | one event type changes the select or squeeze state and is raised exactly as the mask says |
| XrDecoder.RaiseEvents | com.rufus31415.simplewebxr/Runtime/Scripts/SimpleWebXR.cs:638-646 | the six calls together give the state and the event list of the whole mask |
| XrDecoder.CopyAxes | com.rufus31415.simplewebxr/Runtime/Scripts/SimpleWebXR.cs:653-656 | the loop copies exactly the eight axes the layout assigns to the input |
| XrDecoder.CopyButtons | com.rufus31415.simplewebxr/Runtime/Scripts/SimpleWebXR.cs:659-665 | the loop fills exactly the eight buttons the layout assigns to the input |
| XrDecoder.CopyJoints | com.rufus31415.simplewebxr/Runtime/Scripts/SimpleWebXR.cs:672-679 | the loop fills exactly the twenty-five joints of the input's hand |
| XrDecoder.UpdateInput | com.rufus31415.simplewebxr/Runtime/Scripts/SimpleWebXR.cs:627-682 | the input is decoded from the arrays, its events are raised, and only its event byte is cleared |
| XrDecoder.UpdatePose | com.rufus31415.simplewebxr/Runtime/Scripts/SimpleWebXR.cs:629-634 | the pose and position-tracked flag come from the input's float and byte blocks |
| XrDecoder.ConsumeEvents | com.rufus31415.simplewebxr/Runtime/Scripts/SimpleWebXR.cs:636-648 | the mask is applied to the input, its events are raised and its byte is cleared |
| XrDecoder.UpdateControls | com.rufus31415.simplewebxr/Runtime/Scripts/SimpleWebXR.cs:650-680 | the target ray mode, counts, axes, buttons and hand come from the arrays |
| XrFrame.UpdateFrame | com.rufus31415.simplewebxr/Runtime/Scripts/SimpleWebXR.cs:356-387 | one frame updates both cameras and both inputs, their availability and the session flag, raises the frame's events and clears exactly the event and input-change bytes |
| XrFrame.UpdateInputs | com.rufus31415.simplewebxr/Runtime/Scripts/SimpleWebXR.cs:361-365 | both inputs are refreshed, the left one's events before the right one's, and their availability is read from bytes 44 and 45 |
| XrFrame.RefreshInput | com.rufus31415.simplewebxr/Runtime/Scripts/SimpleWebXR.cs:361-365 | a refreshed input keeps its hand and shape and takes its availability from its active byte |
| XrFrame.FrameEventsKinds | com.rufus31415.simplewebxr/Runtime/Scripts/SimpleWebXR.cs:356-387 | a frame raises only input events, the input-change event and the session events, and never initialises the binding |
| XrFrame.SessionEdges | com.rufus31415.simplewebxr/Runtime/Scripts/SimpleWebXR.cs:376-386 | after a frame the binding is in a session exactly when the view count is non-zero, and the start or end event is raised exactly on a change |
| XrFrame.InputSourcesChangeExact | com.rufus31415.simplewebxr/Runtime/Scripts/SimpleWebXR.cs:367-371 | InputSourcesChange is raised exactly when byte 3 is set, and the byte is cleared |
| XrFrame.UpdateIdempotent | com.rufus31415.simplewebxr/Runtime/Scripts/SimpleWebXR.cs:356-387 | a second frame on the same arrays, with the event bytes cleared by the first, changes nothing and raises nothing |
| NativeLog.InitCall | com.rufus31415.simplewebxr/Runtime/Scripts/SimpleWebXR.cs:252-257 | the arrays are shared with the browser only on the first initialisation |
| NativeLog.InitCallOnce | com.rufus31415.simplewebxr/Runtime/Scripts/SimpleWebXR.cs:252-257 | however often initialisation is asked for, the arrays are shared exactly once |
| NativeLog.AppendCall | com.rufus31415.simplewebxr/Runtime/Scripts/SimpleWebXR.cs:252-257 | a browser call that needs the arrays is made only after they were shared |
| NativeLog.Bridge.Initialize | com.rufus31415.simplewebxr/Runtime/Scripts/SimpleWebXR.cs:252-257 | initialisation shares the arrays if not yet done and sets the flag |
| WebXrRuntime.HeightOffset | com.rufus31415.simplewebxr/Runtime/Scripts/SimpleWebXR.cs:724-734 | the viewer space has no offset; the local-floor space uses the user height when it is positive and the fallback height otherwise |
| WebXrRuntime.CameraInit | com.rufus31415.simplewebxr/Runtime/Scripts/SimpleWebXR.cs:545-579 | creating a camera asks whether AR is supported, which initialises the binding the first time |
| WebXrRuntime.HitTestPose | com.rufus31415.simplewebxr/Runtime/Scripts/SimpleWebXR.cs:714-721 | the hit-test pose is read from floats 105 to 111 while a hit test runs and kept otherwise |
| WebXrRuntime.CancelBeforeEndAppend | com.rufus31415.simplewebxr/Runtime/Scripts/SimpleWebXR.cs:328-333 | every session end in the browser call log comes right after a hit-test cancel |
| WebXrRuntime.WebXr.constructor | com.rufus31415.simplewebxr/Runtime/Scripts/SimpleWebXR.cs:429-498 | nothing is initialised, no session, no camera, fresh inputs, the viewer space and zeroed arrays |
| WebXrRuntime.WebXr.GetInput | com.rufus31415.simplewebxr/Runtime/Scripts/SimpleWebXR.cs:264-267 | the input of the asked hand is returned |
| WebXrRuntime.WebXr.Initialize | com.rufus31415.simplewebxr/Runtime/Scripts/SimpleWebXR.cs:252-257 | the arrays are shared once, and their contents are not changed |
| WebXrRuntime.WebXr.QuerySupport | com.rufus31415.simplewebxr/Runtime/Scripts/SimpleWebXR.cs:298-313 | a support query initialises the binding and returns the browser's answer |
| WebXrRuntime.WebXr.StartSession | com.rufus31415.simplewebxr/Runtime/Scripts/SimpleWebXR.cs:318-323 | the binding is initialised, then a session is asked for only when none runs |
| WebXrRuntime.WebXr.EndSession | com.rufus31415.simplewebxr/Runtime/Scripts/SimpleWebXR.cs:328-333 | when a session runs, the hit test is cancelled and then the session ended; otherwise nothing is called |
| WebXrRuntime.WebXr.HitTestStart | com.rufus31415.simplewebxr/Runtime/Scripts/SimpleWebXR.cs:338-342 | the binding is initialised before the hit test is started |
| WebXrRuntime.WebXr.HitTestCancel | com.rufus31415.simplewebxr/Runtime/Scripts/SimpleWebXR.cs:347-351 | the binding is initialised before the hit test is cancelled |
| WebXrRuntime.WebXr.HapticPulse | com.rufus31415.simplewebxr/Runtime/Scripts/SimpleWebXR.cs:395-399 | the intensity and duration go into the hand's floats 101/102 and 103/104 and nothing else changes |
| WebXrRuntime.WebXr.OnGui | com.rufus31415.simplewebxr/Runtime/Scripts/SimpleWebXR.cs:116-137 | unless hidden or in a session, the button is captioned Enter AR, Enter VR or not supported, and a click on a start button starts a session |
| WebXrRuntime.WebXr.UpdateHitTest | com.rufus31415.simplewebxr/Runtime/Scripts/SimpleWebXR.cs:714-721 | the hit-test pose follows the arrays while a hit test runs and the arrays are untouched |
| WebXrRuntime.WebXr.UpdateWebXR | com.rufus31415.simplewebxr/Runtime/Scripts/SimpleWebXR.cs:356-387 | one frame: the decoded frame with the cached height offset, the camera initialisation, the frame's events, the hit-test pose and the cleared event bytes |
| WebXrRuntime.WebXr.LateUpdate | com.rufus31415.simplewebxr/Runtime/Scripts/SimpleWebXR.cs:102-107 | the inspector's reference space and fallback height are cached and then a frame is decoded with them |
| WebXrRuntime.WebXr.GetDeviceOrientation | com.rufus31415.simplewebxr/Runtime/Scripts/SimpleWebXR.cs:857-870 | the orientation listener is started on the first call only; the angles and their validity are read from the orientation arrays |
| XrSimulation.Overwrite | com.rufus31415.simplewebxr/Editor/SimpleWebXRSimulator.cs:64-137 | writing a block of floats changes exactly the indices of the block |
| XrSimulation.ViewCount | com.rufus31415.simplewebxr/Editor/SimpleWebXRSimulator.cs:59 | the view count is zero exactly when no session was started; otherwise one view, or three for two eyes |
| XrSimulation.Simulate | com.rufus31415.simplewebxr/Editor/SimpleWebXRSimulator.cs:53-168 | the simulated frame writes the float and byte arrays as the simulation functions say; without a session only the view count is written, as zero |
| XrSimulation.WriteFirstView | com.rufus31415.simplewebxr/Editor/SimpleWebXRSimulator.cs:64-99 | the first view's 27 floats are the camera projection, the head pose and the full viewport |
| XrSimulation.WriteProjection | com.rufus31415.simplewebxr/Editor/SimpleWebXRSimulator.cs:65-81 | the projection matrix is written column by column into floats 0 to 15 |
| XrSimulation.WriteRow | com.rufus31415.simplewebxr/Editor/SimpleWebXRSimulator.cs:66-81 | one matrix row goes into four floats four apart |
| XrSimulation.WritePose | com.rufus31415.simplewebxr/Editor/SimpleWebXRSimulator.cs:84-93 | a pose goes into seven floats: position with z negated, then the converted rotation |
| XrSimulation.WriteViewport | com.rufus31415.simplewebxr/Editor/SimpleWebXRSimulator.cs:96-99 | a viewport goes into four consecutive floats |
| XrSimulation.CopyFirstView | com.rufus31415.simplewebxr/Editor/SimpleWebXRSimulator.cs:108 | the loop copies floats 0 to 26 onto floats 27 to 53 |
| XrSimulation.WriteInputBytes | com.rufus31415.simplewebxr/Editor/SimpleWebXRSimulator.cs:139-165 | both inputs are marked tracked and active, their event bytes are the select masks, and both get the simulated target ray mode |
| XrSimulation.ProjectionFloats | com.rufus31415.simplewebxr/Editor/SimpleWebXRSimulator.cs:65-81 | the sixteen floats are the matrix entries in column order |
| XrSimulation.PoseRoundTrip | com.rufus31415.simplewebxr/Editor/SimpleWebXRSimulator.cs:84-93 | the binding reads a simulated pose back as the scene's pose, lifted by the height offset |
| XrSimulation.ViewRoundTrip | com.rufus31415.simplewebxr/Editor/SimpleWebXRSimulator.cs:64-112 | the binding decodes a simulated view as the scene's projection, head pose and viewport |
| XrSimulation.SimulatedViewsShape | com.rufus31415.simplewebxr/Editor/SimpleWebXRSimulator.cs:96-112 | the first view gets the full viewport or its left half; with two eyes the second view is a copy with the right half, otherwise the floats after the first view stay as they were |
| XrSimulation.SimulatedInputsShape | com.rufus31415.simplewebxr/Editor/SimpleWebXRSimulator.cs:116-137 | during a session the floats hold the views, the left and right input poses and the configured user height |
| XrSimulation.SimulatedViewsDecode | com.rufus31415.simplewebxr/Editor/SimpleWebXRSimulator.cs:64-112 | the binding decodes the simulated views as the scene's head and projection with the expected viewports |
| XrSimulation.SimulatedCameras | com.rufus31415.simplewebxr/Editor/SimpleWebXRSimulator.cs:59-112 | without a session there is no camera; with one eye a full-screen left camera only; with two eyes two side-by-side cameras |
| XrSimulation.EventMaskReachesWanted | com.rufus31415.simplewebxr/Editor/SimpleWebXRSimulator.cs:151-159 | the byte written is SelectStart when the simulated select is on and the input is not selected, SelectEnd in the opposite case and zero otherwise, and decoding it leaves the input selected exactly as simulated |
| XrSimulation.SimulatedInputDecode | com.rufus31415.simplewebxr/Editor/SimpleWebXRSimulator.cs:116-165 | the binding reads each simulated input back with the scene's pose, tracked and available, with the simulated ray mode and select state |
| XrSimulation.SimulatedBytesShape | com.rufus31415.simplewebxr/Editor/SimpleWebXRSimulator.cs:59-165 | during a session the view count, tracking, active, target-ray-mode and event bytes hold the simulated values |
| XrSimulation.SimulatedFrameDecode | com.rufus31415.simplewebxr/Editor/SimpleWebXRSimulator.cs:53-168 | a binding frame after a simulated frame is in a session, with both inputs where the scene puts them, selected as simulated, a left camera and a right one exactly for two eyes |
| XrSimulation.SimulatedNoSession | com.rufus31415.simplewebxr/Editor/SimpleWebXRSimulator.cs:59-62 | without a session the floats are untouched, only the view count is cleared, and the binding sees no session and no camera and ends a running one |
| XrSimulation.SimulatedFrame | com.rufus31415.simplewebxr/Editor/SimpleWebXRSimulator.cs:53-168 | after a simulated frame the binding is in a session with the simulated selections and a left camera exactly when the simulation started |
| XrSimulation.MenuFloatIgnored | com.rufus31415.simplewebxr/Editor/SimpleWebXRSimulator.cs:186-208 | the menu items write float 0, which neither decides which cameras exist nor survives the next simulated frame |
| XrSimulation.MenuNoneKeepsCamera | com.rufus31415.simplewebxr/Editor/SimpleWebXRSimulator.cs:186-190 | after "Set camera none" during a one-eye session the left camera is still active |
| XrSimulation.MenuViewCountChoosesEyes | com.rufus31415.simplewebxr/Editor/SimpleWebXRSimulator.cs:186-208 | written to the view-count byte, the menu choice would give a left camera exactly for left or both, and a right one exactly for right or both; since the next `Update` rewrites that byte from the session and eye settings, this holds for the frame the choice is read in |
| WebXrSimulator.Simulator.constructor | com.rufus31415.simplewebxr/Editor/SimpleWebXRSimulator.cs:6-23 | a new simulator has the inspector defaults and no started session |
| WebXrSimulator.Simulator.Start | com.rufus31415.simplewebxr/Editor/SimpleWebXRSimulator.cs:25-49 | starting the simulator starts the simulated session |
| WebXrSimulator.Simulator.Update | com.rufus31415.simplewebxr/Editor/SimpleWebXRSimulator.cs:53-168 | one editor frame rewrites the binding's shared arrays as the simulation functions say, from the binding's current select states |
| WebXrSimulator.SetCamera | com.rufus31415.simplewebxr/Editor/SimpleWebXRSimulator.cs:186-208 | the menu items as written replace float 0 with the choice and leave the bytes alone |
| WebXrSimulator.SetViewCount | com.rufus31415.simplewebxr/Editor/SimpleWebXRSimulator.cs:186-208 | the menu items as evidently intended put the choice into the view-count byte and leave the floats alone |
| WebXrPlugin.SimpleWebXr.constructor | Assets/SimpleWebXR/Plugins/SimpleWebXR.cs:84-122 | a new component has zeroed arrays of 101 floats, 48 bytes and 400 hand floats, fresh inputs, no camera, and the simulation's inspector defaults with AR supported and VR not |
| WebXrPlugin.SimpleWebXr.GetInput | Assets/SimpleWebXR/Plugins/SimpleWebXR.cs:125-128 | the input of the asked hand is returned |
| WebXrPlugin.SimpleWebXr.Start | Assets/SimpleWebXR/Plugins/SimpleWebXR.cs:345-348 | the arrays are shared with the browser when the component starts |
| WebXrPlugin.SimpleWebXr.InternalStartSession | Assets/SimpleWebXR/Plugins/SimpleWebXR.cs:185-209 | the editor's simulated session starts |
| WebXrPlugin.SimpleWebXr.InternalEndSession | Assets/SimpleWebXR/Plugins/SimpleWebXR.cs:211 | the editor's simulated session stops |
| WebXrPlugin.SimpleWebXr.StartSession | Assets/SimpleWebXR/Plugins/SimpleWebXR.cs:375-380 | a session is asked for exactly when AR or VR is supported, without checking whether one already runs |
| WebXrPlugin.SimpleWebXr.EndSession | Assets/SimpleWebXR/Plugins/SimpleWebXR.cs:383-388 | the session is ended only when one runs; no hit test is cancelled |
| WebXrPlugin.SimpleWebXr.OnGui | Assets/SimpleWebXR/Plugins/SimpleWebXR.cs:351-372 | unless hidden or in a session, the button is captioned Enter AR, Enter VR or not supported, and a click on a start button starts a session |
| WebXrPlugin.SimpleWebXr.Update | Assets/SimpleWebXR/Plugins/SimpleWebXR.cs:228-341 | one simulated editor frame writes the shared arrays as the simulation functions say |
| WebXrPlugin.SimpleWebXr.LateUpdate | Assets/SimpleWebXR/Plugins/SimpleWebXR.cs:576-605 | one frame with no height offset and no hit test: the decoded frame, its events and the cleared event bytes |
| WebXrPlugin.SimpleWebXr.EditorFrame | Assets/SimpleWebXR/Plugins/SimpleWebXR.cs:228-341 | after Update and LateUpdate the binding is in a session, with the simulated selections and a left camera, exactly when the simulated session runs |
| WebXrPlugin.SimpleWebXr.GetDeviceOrientation | Assets/SimpleWebXR/Plugins/SimpleWebXR.cs:709-722 | the orientation listener is started on the first call only; the angles and their validity are read from the orientation arrays |
| WebXrPlugin.SetCamera | Assets/SimpleWebXR/Plugins/SimpleWebXR.cs:612-634 | the menu items as written replace float 0 with the choice and leave the bytes alone |
| WebXrPlugin.SetViewCount | Assets/SimpleWebXR/Plugins/SimpleWebXR.cs:612-634 | the menu items as evidently intended put the choice into the view-count byte and leave the floats alone |
| WebXrDemo.NewDemoInput | Samples/SimpleWebXRDemo/Assets/SimpleWebXR.cs:485-500 | a new demo input has the given hand, eight axes and buttons, and is neither available nor position-valid, with zero counts |
| WebXrDemo.Project | Samples/SimpleWebXRDemo/Assets/SimpleWebXR.cs:481-500 | the demo's input is the runtime's input without select, squeeze and hand state |
| WebXrDemo.DemoLayoutBounds | Samples/SimpleWebXRDemo/Assets/SimpleWebXR.cs:30-51 | every index the demo reads lies inside its 100 floats and 46 bytes |
| WebXrDemo.DecodeAsRuntime | Samples/SimpleWebXRDemo/Assets/SimpleWebXR.cs:257-296 | the demo decodes an input as the runtime does, with no height offset, restricted to the fields it has |
| WebXrDemo.EventsAsRuntime | Samples/SimpleWebXRDemo/Assets/SimpleWebXR.cs:331-360 | the demo raises the same frame events and clears the same bytes as the runtime |
| WebXrDemo.DemoSessionEdges | Samples/SimpleWebXRDemo/Assets/SimpleWebXR.cs:343-359 | the session flag follows the view count; SessionStart, SessionEnd and InputSourcesChange are raised exactly on their conditions |
| WebXrDemo.DemoUpdateIdempotent | Samples/SimpleWebXRDemo/Assets/SimpleWebXR.cs:331-360 | a second frame on the same arrays, after the first cleared the event bytes, changes nothing and raises nothing |
| WebXrDemo.RaiseDemoEvent | Samples/SimpleWebXRDemo/Assets/SimpleWebXR.cs:298-307 | one event type is raised exactly as the mask says, with no select or squeeze state kept |
| WebXrDemo.ConsumeDemoEvents | Samples/SimpleWebXRDemo/Assets/SimpleWebXR.cs:266-278 | the mask's events are raised in the source's order and the event byte is cleared |
| WebXrDemo.UpdateDemoInput | Samples/SimpleWebXRDemo/Assets/SimpleWebXR.cs:257-296 | the input is decoded from the arrays, its events are raised and only its event byte is cleared |
| WebXrDemo.UpdateDemoFrame | Samples/SimpleWebXRDemo/Assets/SimpleWebXR.cs:331-360 | one frame updates both inputs and the session flag, raises the frame's events and clears the event and input-change bytes |
| WebXrDemo.DemoInputAgrees | Samples/SimpleWebXRDemo/Assets/SimpleWebXR.cs:336-337 | clearing the left event byte does not change how the right input is decoded |
| WebXrDemo.DemoWebXr.constructor | Samples/SimpleWebXRDemo/Assets/SimpleWebXR.cs:30-73 | a new component has zeroed arrays, fresh inputs, no camera, no session and an empty call log |
| WebXrDemo.DemoWebXr.GetInput | Samples/SimpleWebXRDemo/Assets/SimpleWebXR.cs:481-500 | the input of the asked hand is returned |
| WebXrDemo.DemoWebXr.Start | Samples/SimpleWebXRDemo/Assets/SimpleWebXR.cs:127-130 | the arrays are shared with the browser when the component starts |
| WebXrDemo.DemoWebXr.StartSession | Samples/SimpleWebXRDemo/Assets/SimpleWebXR.cs:161-166 | a session is asked for exactly when AR or VR is supported |
| WebXrDemo.DemoWebXr.EndSession | Samples/SimpleWebXRDemo/Assets/SimpleWebXR.cs:169-174 | the session is ended only when one runs |
| WebXrDemo.DemoWebXr.OnGui | Samples/SimpleWebXRDemo/Assets/SimpleWebXR.cs:133-158 | a button is shown exactly when not hidden, not in a session and AR or VR is supported, captioned Enter AR or Enter VR; a click starts a session |
| WebXrDemo.DemoWebXr.LateUpdate | Samples/SimpleWebXRDemo/Assets/SimpleWebXR.cs:331-360 | one frame: the decoded frame, its events and the cleared event bytes |
| WebXrDemo.DemoWebXr.GetDeviceOrientation | Samples/SimpleWebXRDemo/Assets/SimpleWebXR.cs:464-473 | as written, every call starts another orientation listener, because the flag is never set; the angles and validity come from the orientation arrays |
| WebXrDemo.DemoWebXr.ReadOrientationTwice | Samples/SimpleWebXRDemo/Assets/SimpleWebXR.cs:464-473 | two reads as written register the listener twice |
| WebXrDemo.DemoWebXr.GetDeviceOrientationCorrected | Samples/SimpleWebXRDemo/Assets/SimpleWebXR.cs:464-473 | with the flag set after the first call, the listener is registered on the first call only |
| WebXrDemo.DemoWebXr.ReadOrientationTwiceCorrected | Samples/SimpleWebXRDemo/Assets/SimpleWebXR.cs:464-473 | with the correction, two reads register the listener exactly once |
| WebXrDemo.SetCamera | Samples/SimpleWebXRDemo/Assets/SimpleWebXR.cs:366-390 | the menu items as written replace float 0 with the choice and leave the bytes alone |
| WebXrDemo.SetViewCount | Samples/SimpleWebXRDemo/Assets/SimpleWebXR.cs:366-390 | the menu items as evidently intended put the choice into the view-count byte and leave the floats alone |
| DeviceTables.Choose | Assets/SimpleWebXR/Scripts/MRTK-Providers/SimpleWebXRInputDeviceManager.cs:77-97 | an input source is tracked as a hand exactly when it is available with a hand, and as a controller exactly when it is available, position-tracked and without a hand |
| DeviceTables.CheckCapability | Assets/SimpleWebXR/Scripts/MRTK-Providers/SimpleWebXRInputDeviceManager.cs:62-65 | the provider claims articulated hands and no other capability |
| DeviceTables.ValuesExact | Assets/SimpleWebXR/Scripts/MRTK-Providers/SimpleWebXRInputDeviceManager.cs:137-147 | the copy of a table's devices holds exactly its values, and is empty exactly when the table is |
| DeviceTables.GetOrAddControllerOnce | Assets/SimpleWebXR/Scripts/MRTK-Providers/SimpleWebXRInputDeviceManager.cs:99-127 | a tracked controller is returned as it is, with no call; otherwise one is created, or taken from the inactive cache, announced once with SourceDetected and filed under its hand, and a second call returns the same controller |
| DeviceTables.GetOrAddHandOnce | Assets/SimpleWebXR/Scripts/MRTK-Providers/SimpleWebXRInputDeviceManager.cs:162-187 | a tracked hand is returned as it is; otherwise a new hand on a fresh input source is announced once and filed under its hand, and a second call returns the same hand |
| DeviceTables.RemoveControllerOnly | Assets/SimpleWebXR/Scripts/MRTK-Providers/SimpleWebXRInputDeviceManager.cs:129-135 | removing an untracked hand's controller does nothing; otherwise the controller is lost and only its entry is removed |
| DeviceTables.RemoveHandOnly | Assets/SimpleWebXR/Scripts/MRTK-Providers/SimpleWebXRInputDeviceManager.cs:189-195 | removing an untracked hand does nothing; otherwise the hand is lost and only its entry is removed |
| DeviceTables.UpdateRule | Assets/SimpleWebXR/Scripts/MRTK-Providers/SimpleWebXRInputDeviceManager.cs:77-97 | after an update the tables stay keyed and exclusive, the hand is tracked as a hand or as a controller exactly as the source's state chooses, and the other hand is untouched |
| DeviceTables.UpdateRuleHand | Assets/SimpleWebXR/Scripts/MRTK-Providers/SimpleWebXRInputDeviceManager.cs:81-86 | a source with a hand drops the controller and files a hand |
| DeviceTables.UpdateRuleController | Assets/SimpleWebXR/Scripts/MRTK-Providers/SimpleWebXRInputDeviceManager.cs:87-92 | a tracked source without a hand drops the hand and files a controller |
| DeviceTables.UpdateRuleNone | Assets/SimpleWebXR/Scripts/MRTK-Providers/SimpleWebXRInputDeviceManager.cs:94-96 | an unavailable or untracked source drops both the controller and the hand |
| DeviceTables.UpdateStable | Assets/SimpleWebXR/Scripts/MRTK-Providers/SimpleWebXRInputDeviceManager.cs:77-97 | updating twice with the same source leaves the tables as the first update did and only refreshes the device's data |
| DeviceTables.UpdateBothRule | Assets/SimpleWebXR/Scripts/MRTK-Providers/SimpleWebXRInputDeviceManager.cs:67-73 | an update of both sources decides each hand by its own source, left first then right |
| DeviceTables.RemovedControllersRule | Assets/SimpleWebXR/Scripts/MRTK-Providers/SimpleWebXRInputDeviceManager.cs:137-147 | removing a list of controllers loses each of them, keeps the hands and the cache, and never ends the session |
| DeviceTables.RemovedHandsRule | Assets/SimpleWebXR/Scripts/MRTK-Providers/SimpleWebXRInputDeviceManager.cs:197-207 | removing a list of hands loses each of them, keeps the controllers and the cache, and never ends the session |
| DeviceTables.ClearedControllersRule | Assets/SimpleWebXR/Scripts/MRTK-Providers/SimpleWebXRInputDeviceManager.cs:137-147 | clearing the controllers loses every tracked controller and empties their table, keeping the hands |
| DeviceTables.ClearedHandsRule | Assets/SimpleWebXR/Scripts/MRTK-Providers/SimpleWebXRInputDeviceManager.cs:197-207 | clearing the hands loses every tracked hand and empties their table, keeping the controllers |
| DeviceTables.DisableRule | Samples/MRTK/Assets/SimpleWebXR/Scripts/SimpleWebXRInputDeviceManager.cs:158-164 | disabling loses every hand and controller and empties both tables; only the package's provider ends the session |
| DeviceTables.SampleRemovalAsProvider | Samples/MRTK/Assets/SimpleWebXR/Scripts/SimpleWebXRInputDeviceManager.cs:281-301 | with no teleport pointer stored, which the sample never stores, the sample removes devices exactly as the package's provider does |
| DeviceTables.SampleUpdateAsProvider | Samples/MRTK/Assets/SimpleWebXR/Scripts/SimpleWebXRInputDeviceManager.cs:195-215 | with no teleport pointer stored, the sample's update is the provider's update and stores none |
| DeviceTables.TeleportRemoval | Samples/MRTK/Assets/SimpleWebXR/Scripts/SimpleWebXRInputDeviceManager.cs:283-296 | a stored empty pointer entry is removed; a stored pointer is reset and its entry kept |
| DeviceTables.ActivePreferHands | Assets/SimpleWebXR/Scripts/MRTK-Providers/SimpleWebXRInputDeviceManager.cs:48-59 | the active controllers are the tracked hands whenever there is one, and are then all hands; otherwise the tracked controllers; none exactly when nothing is tracked |
| DeviceManager.InputDeviceManager.constructor | Assets/SimpleWebXR/Scripts/MRTK-Providers/SimpleWebXRInputDeviceManager.cs:17-28 | a new provider tracks nothing, caches nothing and has made no calls |
| DeviceManager.InputDeviceManager.GetOrAddController | Assets/SimpleWebXR/Scripts/MRTK-Providers/SimpleWebXRInputDeviceManager.cs:99-127 | the tables and calls change exactly as adding a controller says, and the device returned is the one filed |
| DeviceManager.InputDeviceManager.GetOrAddHand | Assets/SimpleWebXR/Scripts/MRTK-Providers/SimpleWebXRInputDeviceManager.cs:162-187 | the tables and calls change exactly as adding a hand says, and the device returned is the one filed |
| DeviceManager.InputDeviceManager.RemoveTrackedController | Samples/MRTK/Assets/SimpleWebXR/Scripts/SimpleWebXRInputDeviceManager.cs:281-301 | a controller is lost, unfiled and its pointers recycled; the sample also handles its teleport pointer |
| DeviceManager.InputDeviceManager.RemoveTrackedHand | Samples/MRTK/Assets/SimpleWebXR/Scripts/SimpleWebXRInputDeviceManager.cs:372-392 | the sample handles the hand's teleport pointer, then the hand is lost, unfiled and its pointers recycled |
| DeviceManager.InputDeviceManager.RemoveControllerDevice | Assets/SimpleWebXR/Scripts/MRTK-Providers/SimpleWebXRInputDeviceManager.cs:129-135 | the controller of a hand is removed if tracked, and nothing happens otherwise |
| DeviceManager.InputDeviceManager.RemoveHandDevice | Assets/SimpleWebXR/Scripts/MRTK-Providers/SimpleWebXRInputDeviceManager.cs:189-195 | the hand device of a hand is removed if tracked, and nothing happens otherwise |
| DeviceManager.InputDeviceManager.RemoveAllControllerDevices | Assets/SimpleWebXR/Scripts/MRTK-Providers/SimpleWebXRInputDeviceManager.cs:137-147 | the loop removes every controller of a copy of the table, in order, then clears the table |
| DeviceManager.InputDeviceManager.RemoveAllHandDevices | Assets/SimpleWebXR/Scripts/MRTK-Providers/SimpleWebXRInputDeviceManager.cs:197-207 | the loop removes every hand of a copy of the table, in order, then clears the table |
| DeviceManager.InputDeviceManager.UpdateController | Assets/SimpleWebXR/Scripts/MRTK-Providers/SimpleWebXRInputDeviceManager.cs:77-97 | after an update the hand is tracked as a hand exactly for an available source with a hand, as a controller exactly for an available tracked source without one, the other hand is kept and the tables stay keyed and exclusive |
| DeviceManager.InputDeviceManager.Update | Assets/SimpleWebXR/Scripts/MRTK-Providers/SimpleWebXRInputDeviceManager.cs:67-73 | after an update each hand is tracked exactly as its own source chooses |
| DeviceManager.InputDeviceManager.Disable | Assets/SimpleWebXR/Scripts/MRTK-Providers/SimpleWebXRInputDeviceManager.cs:38-46 | both tables end empty, every hand and controller that was tracked is lost, and the session is ended exactly by the package's provider |
| DeviceManager.InputDeviceManager.GetActiveControllers | Assets/SimpleWebXR/Scripts/MRTK-Providers/SimpleWebXRInputDeviceManager.cs:48-59 | the tracked hands when there is one, else the tracked controllers; empty exactly when nothing is tracked |
| SpectatorClient.ReceiveChunksFrom | Assets/SimpleWebXR/Scripts/SpectatorViewWebXRClient/SpectatorViewWebXRClient.cs:66-76 | from any chunk boundary on, the remaining chunks of an image complete the buffer and publish exactly the image |
| SpectatorImage.Chunk | Assets/SimpleWebXR/Examples/Scripts/SpectatorViewHololens2Server/SpectatorViewHololens2Server.cs:284-288 | chunk i has 60000 bytes, or what is left of the image for the last one |
| SpectatorImage.ChunksPrefix | Assets/SimpleWebXR/Examples/Scripts/SpectatorViewHololens2Server/SpectatorViewHololens2Server.cs:284-290 | the first k chunks concatenate to the first k * 60000 bytes of the image, or the whole image after the last chunk |
| WebSocketFrame.MaskedFrameDecodes | Assets/SimpleWebXR/Examples/Scripts/SpectatorViewHololens2Server/SpectatorViewHololens2Server.cs:304-354 | a frame masked as section 5.3 of RFC 6455 says decodes to its payload whatever follows it, unless its 16-bit length is read as negative |
| WebSocketFrame.LongFrame | Assets/SimpleWebXR/Examples/Scripts/SpectatorViewHololens2Server/SpectatorViewHololens2Server.cs:392-405 | the ten-byte header for a payload above 65535 bytes, followed by the payload slice |
| WebSocketHandshake.RestOfLineStops | Assets/SimpleWebXR/Examples/Scripts/SpectatorViewHololens2Server/SpectatorViewHololens2Server.cs:67 | the key read ends at the first line feed |

## Left out

- Sockets, threads and locks: the server's accept and receive loop, its lock, the client's WebSocket connection and the uHTTP `Server` thread; the decoders are modelled on the bytes a call receives.
- The server's receive buffer: the caller passes its fixed 100000-byte buffer and not the received count, so the decoder's length test is against capacity; `DecodeFrame` is modelled on the buffer it is given.
- SHA-1 is a parameter of the handshake model; Base64 and UTF-8 are written out (Dafny characters are scalar values, so surrogate pairs do not arise).
- The `Sec-WebSocket-Key` regular expression is modelled as a matcher for the text after the header name up to the end of the line, trimmed.
- The file system of `StaticWebServer`, and the `netsh` process and its output in `Firewall`, are inputs of the model.
- `Math.Ceiling` over a float in the server's chunk count is modelled as integer ceiling division; float rounding for images of more than 2^24 bytes is not modelled.
- A zero-length image: the client allocates an empty buffer, no chunk follows, and the image is never published; the model keeps this behaviour and states nothing more about it.
- Text.ToLower: .NET `String.ToLower` and `String.ToUpper` follow the current culture and map all of Unicode; the model maps only the ASCII letters, the same way in every culture, so the Turkish dotted and dotless i, the Kelvin sign and every non-ASCII letter keep their case. Text.ToUpper likewise.
- Firewall.RuleName: the file name is lower-cased in ASCII only, culture-invariantly; `C:\Apps\ÄPP.EXE` gives "Äpp.exe" here where .NET gives "äpp.exe".
- Firewall.RuleNameIsFileName: "no upper-case letter" is proved for the ASCII letters only, because case mapping is ASCII-only and culture-invariant.
- Firewall.RuleNameOfPath: the lower-cased file name is the ASCII-only, culture-invariant lower case.
- StaticWebServer.FirstIndex: the index test lower-cases ASCII only, culture-invariantly; under a Turkish culture .NET does not take "INDEX.html" for the index file, the model does.
- StaticWebServer.Route: the GET test upper-cases the method in ASCII only, culture-invariantly; StaticWebServer.NonGetIsError inherits this.
- Text.UpperOfLower: holds for the ASCII-only case mapping; under .NET the Kelvin sign U+212A lower-cases to 'k', so upper-casing after lower-casing gives 'K' where upper-casing alone keeps U+212A.
- Floats are modelled as reals: the decoders and the simulation only copy, negate and offset them, apart from the simulation's projection matrix, which is an input.
- WebXrDemo.DecodeAsRuntime: the demo's Euler-angle `ToUnityRotation` is modelled as the quaternion sign flip of x and y that the other variants use, because Euler conversion is float geometry.
- Unity rendering: camera creation and destruction in `UpdateCamera`, the main camera's saved properties, textures, PNG encoding and `RenderInTexture`; the cameras are modelled only as which eye each one shows and whether it is active.
- The browser's answers to "is AR supported" and "is VR supported" are parameters; the order in which they initialise the camera is taken as one step.
- `OnGUI` layout: only the button shown and the effect of clicking it are modelled.
- The simulator's scene lookup and sphere placement in `StartSimulation`: the scene (camera, head and controller poses) is an input of each frame.
- The runtime's hit-test update is taken first in each frame; it reads and writes nothing else the frame touches.
- Haptics: `HapticPulse` is modelled as the writes into the shared arrays; the vibration itself happens in the browser.
- Browser JavaScript interop is modelled as logged calls; `Debug.Log`, `ToString` and `Stringify` formatting are left out.
- The plugin is modelled as its editor build, where the inline simulation stands in for the browser.
- MRTK handedness is reduced to Left and Right; the input system is assumed present, so the `?.` paths that skip a missing input system are not modelled.
- The MRTK pointers' back-references to their source, set in a loop after they are requested, are not modelled.
- `UpdateController` of the MRTK hand and controller classes is logged as one `DeviceUpdated` event, because it depends on MRTK interaction semantics outside this model.
- The removal loops visit the tracked devices in the order Left then Right; .NET dictionary enumeration order is not modelled further.
- The null guards of the `Remove*` overloads taking a device are not modelled: the model only passes devices it holds.
- `Enable`, `EnsureInstance`, `SetupInput` and the hand-tracking profile lookup of the device manager are left out; the provider's call to end the session in `Disable` is logged as `EndSessionRequested`.
- One class, `DeviceManager.InputDeviceManager`, models both device manager files; its `variant` field selects the MRTK sample's teleport-pointer handling and the provider's end of session.
- `inactiveControllerCache` and `teleportPointers` are read but never filled by either manager, so the model keeps them as tables nothing adds to.
- The uHTTP `Dispatcher`, `InboxEndpoint`, `NetworkUtility` and `LocalRestAPI` files are not part of this model.
- The hand and controller MRTK classes, the example and UI scripts, and the build scripts are not part of this model.

## Findings

| source | as written | input that shows it | evidently intended | confidence | as-written member | corrected member |
|---|---|---|---|---|---|---|
| Assets/SimpleWebXR/Examples/Scripts/SpectatorViewHololens2Server/SpectatorViewHololens2Server.cs:392-405 | the 64-bit length is written with `length >> 56`, `>> 48`, `>> 40`, `>> 32` on a 32-bit `int`; C# masks the shift count to 5 bits, so bytes 2-5 repeat bytes 6-9 | a payload of 65536 bytes is sent with the length bytes 00 01 00 00 00 01 00 00, which a reader takes as 2^48 + 65536 | bytes 2-5 zero, the 64-bit big-endian length of section 5.2 of RFC 6455 | high, not executed | WebSocketFrame.EncodeFrameAsWrittenLongMisread | WebSocketFrame.EncodeFrameRoundTrip |
| Assets/SimpleWebXR/Examples/Scripts/SpectatorViewHololens2Server/SpectatorViewHololens2Server.cs:321-326 | the 16-bit extended length is read with `BitConverter.ToInt16`, which is signed | a client frame with a 40000-byte payload reads as a negative length and is rejected | an unsigned 16-bit length, as section 5.2 of RFC 6455 defines it | high, not executed | WebSocketFrame.DecodeFrameRejectsMidSizedFrames | WebSocketFrame.DecodeFrameCorrectedRoundTrip |
| com.rufus31415.simplewebxr/Editor/SimpleWebXRSimulator.cs:186-208 | the "Set camera" menu items write the choice into float 0 of the data array, a coordinate of the first view, and not the view count byte | choosing "None" during a simulated session leaves the view count at 1 (or 3 with two eyes), so the left camera stays active | the choice becomes the number of views the decoder reads; the next `Update` at line 56 rewrites that byte from the session and eye settings, so a lasting choice would also need those settings changed | medium, not executed | XrSimulation.MenuNoneKeepsCamera | XrSimulation.MenuViewCountChoosesEyes |
| Assets/SimpleWebXR/Plugins/SimpleWebXR.cs:612-634 | the plugin's "Set camera" menu items write the choice into float 0 of the data array | any choice leaves the view count byte unchanged | the choice becomes the view count byte; in the editor the next `Update` at line 231 rewrites it from the simulation settings | medium, not executed | WebXrPlugin.SetCamera | WebXrPlugin.SetViewCount |
| Samples/SimpleWebXRDemo/Assets/SimpleWebXR.cs:366-390 | the demo's "Set camera" menu items write the choice into float 0 of the data array | any choice leaves the view count byte unchanged | the choice becomes the view count byte | medium, not executed | WebXrDemo.SetCamera | WebXrDemo.SetViewCount |
| Samples/SimpleWebXRDemo/Assets/SimpleWebXR.cs:464-473 | `GetDeviceOrientation` tests `_orientationDeviceStarted` but never sets it, so every call asks the browser to start listening again | two calls in a row make two device-orientation start calls | the start call made on the first call only, as the plugin and the runtime do | high, not executed | WebXrDemo.DemoWebXr.ReadOrientationTwice | WebXrDemo.DemoWebXr.ReadOrientationTwiceCorrected |
