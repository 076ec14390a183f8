# EduDesk submission protection, modelled in Dafny

EduDesk is a Qt desktop application for teachers and students. Its core
protects every submitted file by envelope encryption:

- The `create_submission` tool encrypts the file under a fresh 32-byte
  content key, using libsodium secretbox framing (`nonce(24) || MAC(16) ||
  ciphertext`).
- It wraps that key under a 32-byte master key with AES-256-GCM (NIST SP
  800-38D).
- It writes `files/<uuid>.dat` and a JSON metadata record
  `metadata/<uuid>.json` under the storage root, then registers the
  submission in the database.
- The teacher's and the student's windows reverse the pipeline: find the
  metadata, unwrap the content key and decrypt the stored file into a
  temporary file.

Around this sit four smaller pieces:

- the password rules and the Argon2id (RFC 9106) credential flow of
  `AuthManager`;
- the configuration loader, which decodes the master key from base16
  (section 8 of RFC 4648);
- the `pbkdf2_gen` helper;
- the small string builders of the two windows.

The project models these as follows:

- **Primitives** (AES-GCM, secretbox, `crypto_pwhash_str`, PBKDF2, base64,
  JSON text) are records of functions. Their laws (round trip, lengths, tag
  verification) are the constraint of a subset type, so nothing is assumed
  without a witness.
- **The file system** is a `FileStore` class with a map from paths to bytes.
  It also has unreadable, unwritable and executable path sets, and a
  per-write byte limit that makes a write come back short.
- **The `users` and `submissions` tables** are classes with a `seq` of rows.
- **`ConfigManager` and `TeacherWindow`** are classes whose fields the
  methods update.
- **Randomness** is arbitrary bytes of the stated length.
- **Failing OpenSSL calls** are a set of failing steps.
- **The environment** (whether libsodium starts, whether the database opens
  or accepts a row, what `QProcess::execute` returns) is passed in as
  parameters.
- **Out-parameters** (`err`, `out_cipher`, `out_plain`, …) are passed in
  with their old contents and returned with their new ones. This makes
  "left untouched" statable.

Module layout, following the program:

- `base`, `text`, `codecs`, `storage`, `primitives`: shared vocabulary (bytes, `std::atoi`, `QString::number`, `QFileInfo` names, JSON/base64, files, primitive laws)
- `hex`: `hexEncode`/`toHex` and `hexToBytes`
- `password`, `auth`: `src/auth`
- `config`: `src/config`
- `keyprotect`, `filecrypto`: `src/crypto`
- `submissions`: the `submissions` table
- `create_submission`: `src/tools/create_submission.cpp`
- `reveal`: what both reveal pipelines read from a metadata record
- `teacher`, `student`: the two windows
- `pbkdf2gen`: `tools/pbkdf2_gen.cpp`
- `roundtrip`: protect followed by reveal, end to end

Behaviour of the code worth knowing before reading the model:

- `aes256_cbc_encrypt` and `aes256_cbc_decrypt` use secretbox, not AES-CBC,
  despite their names. Their `iv` argument is ignored.
- The whole file is read into memory; it is not streamed.
- A missing master key is detected only where the key is used, not at
  startup.
- An absent `pbkdf2_iterations` keeps the count already held (100000 unless
  an earlier load changed it).
- A failed decryption can leave a short, partly written temporary file.
- The student's reveal copies the ciphertext unchanged when the metadata is
  missing.

## Model

| member | source | states |
|---|---|---|
| PasswordUtils.ValidatePasswordRules | src/auth/PasswordUtils.cpp:12-49 | accepts exactly the passwords every rule holds for (at least 10 bytes, no space, a lower-case letter, an upper-case letter, a digit, a character of the special set); on acceptance `errMsg` is untouched; on rejection the message is that of the first failing rule; any password under 10 bytes gets the length message |
| PasswordUtils.RejectionNamesFirstFailure | src/auth/PasswordUtils.cpp:14-46 | every rejection names a rule that fails while all earlier rules hold |
| PasswordUtils.HashPassword | src/auth/PasswordUtils.cpp:53-68 | a failure is a throw with "crypto_pwhash_str failed", never a returned hash; a returned hash is `crypto_pwhash_str` of the password under some 16-byte salt and verifies against that password |
| AuthManager.Lookup | src/auth/AuthManager.cpp:69-82 | the row found has exactly the login and is active; none found means no active row has that login |
| AuthManager.LookupAfterAppend | src/auth/AuthManager.cpp:41-57 | an active row appended for a new login is what a lookup of that login finds |
| AuthManager.UsersTable.Insert | src/auth/AuthManager.cpp:41-55 | the insert succeeds exactly when the database accepts and the login is new (a unique `login` constraint is assumed); then one row with the next id is appended, otherwise nothing changes; logins stay unique |
| AuthManager.RegisterUser | src/auth/AuthManager.cpp:17-58 | a password failing the rules is never registered; success appends exactly one active row with the login, role, an empty salt and a hash that verifies against the password, which a lookup then finds; conversely an acceptable password whose hash can be made is registered whenever the insert goes through; every failure leaves the table unchanged |
| AuthManager.Authenticate | src/auth/AuthManager.cpp:60-106 | succeeds exactly when the query runs, an active row with the exact login exists and its hash verifies; unknown login and wrong password both give plain false and leave `outUserId`/`outRole` unchanged; success returns that row's id and role |
| AuthManager.RegisterThenAuthenticate | src/auth/AuthManager.cpp:17-106 | after a successful registration the same login and password authenticate and yield the new row's id and the given role |
| Hex.Encode | src/tools/create_submission.cpp:25-30 | the text has two lower-case base16 digits per byte and nothing else |
| Hex.EncodeAt | src/tools/create_submission.cpp:28 | byte i is written zero-padded at positions 2i and 2i+1 |
| Hex.HexEncode | src/tools/create_submission.cpp:25-30 | the loop appending one pair per byte computes `Encode` |
| Hex.DigitValue | src/config/ConfigManager.cpp:16 | a base16 digit of either case has a value below 16 that prints back as the lower-case digit; any other character has none |
| Hex.PairValue | src/config/ConfigManager.cpp:16 | a pair reads as a byte exactly when both characters are base16 digits, with value 16·high + low |
| Hex.PairValueOfByteText | src/tools/create_submission.cpp:28 | the two digits printed for a byte read back as that byte |
| Hex.Decode | src/config/ConfigManager.cpp:9-24 | odd-length text gives nothing; a decoding has half as many bytes as the text has characters |
| Hex.DecodeAt | src/config/ConfigManager.cpp:14-22 | byte k of a decoding is the value of characters 2k and 2k+1 |
| Hex.DecodeRejectsBadPair | src/config/ConfigManager.cpp:17-20 | one malformed pair anywhere makes the whole decoding fail, discarding the bytes read so far |
| Hex.DecodeEncode | src/config/ConfigManager.cpp:9-24 | `hexToBytes(hexEncode(v)) == v` for every byte sequence |
| Hex.EncodeDecode | src/config/ConfigManager.cpp:9-24 | text that decodes is the encoding of its bytes up to case |
| Hex.DecodeIgnoresCase | src/config/ConfigManager.cpp:16 | upper- and lower-case digits decode alike |
| Hex.HexToBytes | src/config/ConfigManager.cpp:9-24 | the loop returns the decoding, or empty for odd length or any bad pair |
| Codecs.StringOr | src/config/ConfigManager.cpp:60-64 | `value(key).toString(default)`: the string stored under the key, otherwise the default |
| Codecs.IntOr | src/config/ConfigManager.cpp:54 | `value(key).toInt(default)`: a whole number in `int` range under the key; the default for an absent key, a non-number, a fraction or a number outside `int` |
| Codecs.ObjectOf | src/config/ConfigManager.cpp:40-46 | a file's contents give an object exactly when they are readable and parse to a JSON object |
| Config.DbObject | src/config/ConfigManager.cpp:58-59 | the `db` member is used exactly when present and an object |
| Config.IterationsAfter | src/config/ConfigManager.cpp:53-56 | an absent count keeps the previous one; a present count is always positive: the value when it is a positive whole number, 100000 when it is not a number or is not positive |
| Config.DbFrom | src/config/ConfigManager.cpp:58-65 | each database field is the string (or, for the port, the whole number) in the `db` object, or its fallback (localhost, 5432, jumandgi, jumandgi_user, changeme) when absent or of another type |
| Config.LoadOutcomeSpec | src/config/ConfigManager.cpp:31-75 | an unreadable file, a non-object or an empty `master_key_hex` change nothing and fail; otherwise the iteration count and database settings are taken from the file even when the key is then refused; success means the key text has 64 digits and decodes to exactly 32 bytes, which become the master key; a refused key is cleared; valid settings stay valid |
| Config.ConfigManager.constructor | src/config/ConfigManager.hpp:26-37 | no master key, 100000 iterations and the built-in database settings |
| Config.ConfigManager.ReadIterations | src/config/ConfigManager.cpp:53-56 | the field afterwards is `IterationsAfter` of the object and the previous count |
| Config.ConfigManager.ReadDb | src/config/ConfigManager.cpp:58-65 | the database fields are replaced from a `db` object and otherwise unchanged |
| Config.ConfigManager.Load | src/config/ConfigManager.cpp:31-75 | the verdict and all the fields afterwards are those `LoadOutcomeSpec` describes; the master key is empty or 32 bytes and the count positive, before and after |
| Config.EncodedKeyLoads | src/config/ConfigManager.cpp:47-72 | a configuration whose key text is `hexEncode` of a 32-byte key loads, and loads that key |
| KeyProtect.EncryptFault | src/crypto/KeyProtect.cpp:22-42 | the first failing step of a wrap in call order, or none exactly when no checked step fails |
| KeyProtect.DecryptFault | src/crypto/KeyProtect.cpp:54-69 | the first failing step of an unwrap; setting a tag fails also for a tag outside 1..16 bytes |
| KeyProtect.IvWindow | src/crypto/KeyProtect.cpp:59 | the nonce the cipher takes is 12 bytes, the first 12 of a long enough `iv` |
| KeyProtect.RandomBytes | src/crypto/KeyProtect.cpp:8-12 | exactly n bytes |
| KeyProtect.EncryptWithAesGcm | src/crypto/KeyProtect.cpp:14-45 | a master key that is not 32 bytes fails with "master_key must be 32 bytes" and touches no buffer; otherwise a 12-byte nonce is stored first; success holds exactly when no step fails, and then the ciphertext is as long as the plaintext and the tag is the 16-byte GCM tag; a failure reports its step's message, and the buffers keep what was written up to it |
| KeyProtect.DecryptWithAesGcm | src/crypto/KeyProtect.cpp:47-74 | the same key-size rule; success holds exactly when no step fails and the tag verifies; once the update ran, the output holds the decryption whatever the tag, with no check of `iv` or tag length; a tag mismatch fails with "DecryptFinal failed - tag mismatch" |
| KeyProtect.WrapThenUnwrap | src/crypto/KeyProtect.cpp:14-74 | with no failing step, unwrapping a wrapped key under the same master key gives it back; a wrong-size master key is refused by both |
| FileCrypto.GenRandomBytes | src/crypto/FileCrypto.cpp:10-16 | exactly `len` bytes |
| FileCrypto.OpenFrame | src/crypto/FileCrypto.cpp:52-92 | a frame opens only under a 32-byte key and when it has at least 40 bytes, and then to 40 bytes fewer than the frame |
| FileCrypto.OpenFrameOfFrame | src/crypto/FileCrypto.cpp:18-92 | a frame made of a plaintext opens to that plaintext under the same key |
| FileCrypto.EncryptBufferSecretbox | src/crypto/FileCrypto.cpp:18-50 | a key that is not 32 bytes fails with the key-size message and leaves the buffer; otherwise the buffer is 24 + plaintext + 16 bytes, and success makes it a frame (nonce first) of the plaintext |
| FileCrypto.DecryptBufferSecretbox | src/crypto/FileCrypto.cpp:52-92 | success holds exactly when the frame opens, and the output is the opened plaintext; each failure has its message ("cipher too short" below 40 bytes; the "cipher data too short" check is unreachable); the output is resized only after both length checks |
| FileCrypto.Aes256CbcEncrypt | src/crypto/FileCrypto.cpp:94-131 | the iv plays no part; each failure (sodium, unreadable input, key size, unwritable output, short write) returns false with its message, and only the last two touch the output file; success stores a frame of the input's bytes at the output path and changes nothing else; with a working library, readable input, a 32-byte key, a writable output and room for the frame, it succeeds |
| FileCrypto.Aes256CbcDecrypt | src/crypto/FileCrypto.cpp:133-170 | the iv plays no part; the output is opened only after the frame has opened; success stores exactly the plaintext at the output path; every failure before that leaves the files unchanged |
| Submissions.FindById | src/gui/TeacherWindow.cpp:225-230 | the row found has the requested id; none found means no row has it |
| Submissions.FindAppended | src/tools/create_submission.cpp:130-140 | a row appended with an id above all others is what a lookup of that id finds |
| Submissions.SubmissionsTable.Create | src/tools/create_submission.cpp:128-140 | `sp_create_submission` adds exactly one row with the next id, the assignment, the student, the stored file name, the original name and no grade when the database accepts, and otherwise nothing |
| CreateSubmission.ParseArgs | src/tools/create_submission.cpp:53-68 | fewer than three arguments is a usage error; the ids are `atoi` of the second and third; the original name is the fourth argument, or the input path's file name (which has no '/') |
| CreateSubmission.MakeUuidHex | src/tools/create_submission.cpp:37-39 | the uuid is the lower-case base16 of 16 bytes, 32 characters |
| CreateSubmission.UuidOfDataFileName | src/tools/create_submission.cpp:85-89 | the base name of `<uuid>.dat` is the uuid, the key that ties ciphertext to metadata |
| CreateSubmission.StorageAreasDistinct | src/tools/create_submission.cpp:88-89 | the ciphertext path and the metadata path never coincide |
| CreateSubmission.Metadata | src/tools/create_submission.cpp:112-118 | exactly the keys owner_id, original_name, iv, key_encrypted, key_iv, key_tag; each binary value base64-decodes to the bytes recorded |
| CreateSubmission.EncryptInput | src/tools/create_submission.cpp:85-98 | a 32-byte content key and 16-byte IV; a failure touches no file but the ciphertext file; success stores there a frame of the input under the content key; with a readable input that secretbox seals, a writable ciphertext path and room for the frame, it cannot fail |
| CreateSubmission.StoreProtected | src/tools/create_submission.cpp:85-126 | the steps run in order encrypt, wrap, write metadata, each only after the one before succeeded; each failure has its cause (encryption could fail, an OpenSSL step of the wrap failed, the metadata path is unwritable); a wrap or metadata-open failure leaves the ciphertext and nothing else; after the metadata is written, the ciphertext and the metadata are the only changes and together protect the input under the master key |
| CreateSubmission.FilesAfterRecorded | src/tools/create_submission.cpp:95-126 | a stored frame plus the written metadata record satisfy the protection relation |
| CreateSubmission.StoreAndRegister | src/tools/create_submission.cpp:85-143 | the row is added only after the metadata was written, and exactly when the run succeeds; an insert failure keeps both files and reports failure |
| CreateSubmission.Prepare | src/tools/create_submission.cpp:48-83 | the stops before any file work in order: libsodium, usage (fewer than three arguments, with the configuration untouched), configuration load, storage layout, database; getting past them means the configuration loaded |
| CreateSubmission.Run | src/tools/create_submission.cpp:45-144 | exit 0 exactly when every step succeeded, and each failure has its cause (libsodium, usage, configuration, storage, database, encryption, wrap, metadata path, insert), so a run where none of these fails exits 0; nothing is written before encryption; the files and rows afterwards are as the step reached prescribes; success names `files/<uuid>.dat` under the storage root |
| Reveal.EnvelopeOfMetadata | src/gui/TeacherWindow.cpp:253-262 | the envelope read back from a metadata record the tool wrote is the IV, wrapped key, nonce and tag it recorded |
| Reveal.UnwrapsWrapped | src/crypto/KeyProtect.cpp:47-74 | a key wrapped under the master key with a 12-byte nonce unwraps, to itself |
| Teacher.GradeCell | src/gui/TeacherWindow.cpp:174-180 | the grade alone without feedback, the feedback alone without a grade, otherwise `grade / feedback` |
| Teacher.MetaPathOfDataFile | src/gui/TeacherWindow.cpp:235-236 | the metadata path derived from a registered `<uuid>.dat` is the one the tool wrote |
| Teacher.SafeName | src/gui/TeacherWindow.cpp:283-285 | the sanitised name contains no '/' and no '\' |
| Teacher.SafeNameOfPlainName | src/gui/TeacherWindow.cpp:283-285 | a name without '\' is reduced to its file name and otherwise unchanged |
| Teacher.TempNameIsFlat | src/gui/TeacherWindow.cpp:283-287 | `edudesk_sub_<id>_<safeName>` has no '/', so the file lands directly in the temporary directory |
| Teacher.DecryptToTemp | src/gui/TeacherWindow.cpp:287-294 | after removing the old temporary file, only it changes; success holds exactly when the stored frame opens and fits, and leaves exactly the plaintext there |
| Teacher.RecordOf | src/gui/TeacherWindow.cpp:217-230 | a record is found only for a positive selected id when the query runs, and it has that id |
| Teacher.LocateEnvelope | src/gui/TeacherWindow.cpp:199-262 | no selection, a non-positive id, a missing row, an unreadable metadata file and a non-object each stop in that order, and nothing is changed |
| Teacher.UnwrapAndDecrypt | src/gui/TeacherWindow.cpp:264-294 | an empty master key stops before unwrapping; a failed unwrap stops before the file is looked at; a missing stored file stops before decryption; only decryption changes files |
| Teacher.TeacherWindow.constructor | src/gui/TeacherWindow.hpp:34 | no assignment is chosen (-1) |
| Teacher.TeacherWindow.OnAssignmentSelected | src/gui/TeacherWindow.cpp:121-132 | the id is taken and the submissions reloaded exactly for a non-negative row with an item holding a positive id; otherwise the current id is unchanged |
| Teacher.TeacherWindow.OnDownloadSubmission | src/gui/TeacherWindow.cpp:198-294 | each stop happens exactly under its condition and after all earlier steps passed; past the existence check, decryption succeeds exactly when libsodium is ready, the frame opens under the unwrapped key and the plaintext can be written whole to the temporary file; `Revealed` means the temporary file now holds exactly the plaintext of the stored frame under the unwrapped key; only decryption changes files |
| Student.StudentGradeCell | src/gui/StudentWindow.cpp:124-126 | the cell starts with the grade and adds " / " plus the feedback exactly when there is feedback |
| Student.GradeCellsAgree | src/gui/StudentWindow.cpp:124-126 | the student's cell equals the teacher's except with feedback and no grade, where it begins with " / " |
| Student.FindCreateSubmissionExe | src/gui/StudentWindow.cpp:133-141 | empty exactly when none of the three candidates exists and is executable; otherwise the first candidate, in order, that does |
| Student.UploadArgsParse | src/gui/StudentWindow.cpp:162-163 | the arguments an upload passes are read back by `create_submission` as the same file, ids and the file's name |
| Student.OnUpload | src/gui/StudentWindow.cpp:143-175 | stops without an assignment, on a cancelled dialog or without an executable; otherwise runs the first runnable candidate, in order, with the upload arguments; the submissions are reloaded exactly when it exits 0 |
| Student.StudentPathsUnderStorage | src/gui/StudentWindow.cpp:193-197 | the student's relative `storage/files/…` and `storage/metadata/….json` are the teacher's paths with storage root "storage" |
| Student.StudentFindsStoredSubmission | src/gui/StudentWindow.cpp:193-197 | for a `<uuid>.dat` the student looks where the tool wrote the ciphertext and the metadata |
| Student.TempPathOf | src/gui/StudentWindow.cpp:198-199 | the temporary path has no '/' and is as long as directory, '/', base name, '_' and original name together (for a base name without place markers) |
| Student.TempPathLeavesTempDir | src/gui/StudentWindow.cpp:198-199 | for an absolute temporary directory the flattened path starts with '_' and is not inside that directory |
| Student.RevealWithMetadata | src/gui/StudentWindow.cpp:201-234 | open failure, non-object, empty master key and failed unwrap stop in that order with no file changed; only an unwrapped key reaches decryption, which succeeds exactly when libsodium is ready, the frame opens and the plaintext can be written whole, changes only the temporary file and on success leaves the stored frame's plaintext there |
| Student.CopyStored | src/gui/StudentWindow.cpp:235-241 | without metadata the old temporary file is removed and the stored bytes are copied there unchanged; the copy succeeds exactly when the source is readable, distinct, the target writable and the bytes fit |
| Student.OnDownloadMySubmission | src/gui/StudentWindow.cpp:184-241 | no selection, an empty path and a missing stored file stop first with nothing changed; then an existing metadata file leads to the decryption branch and an absent one to the plain copy |
| Pbkdf2Gen.IterationsOfDecimal | tools/pbkdf2_gen.cpp:23-24 | a count given in decimal is used as it is, zero and negatives included |
| Pbkdf2Gen.IterationsOfNonNumber | tools/pbkdf2_gen.cpp:24 | a second argument that does not start like a number gives 0, not the default |
| Pbkdf2Gen.ReportReadsBack | tools/pbkdf2_gen.cpp:37-39 | the three lines carry the prefixes salt=, hash=, iterations=; salt and hash are 32 and 64 base16 digits decoding to the bytes used; the count reads back |
| Pbkdf2Gen.Generate | tools/pbkdf2_gen.cpp:17-41 | no password: usage and exit 1; failing random source: exit 1 before deriving; otherwise exit 0 with the report of a fresh 16-byte salt and the 32-byte PBKDF2 hash under the chosen count |
| RoundTrip.ProtectedOpensToPlaintext | src/tools/create_submission.cpp:85-126 | the stored metadata parses, its envelope unwraps under the same master key, and the unwrapped key opens the stored ciphertext to the uploaded bytes |
| RoundTrip.TeacherRevealsUpload | src/gui/TeacherWindow.cpp:272-294 | a teacher's `Revealed` on a protected submission leaves exactly the uploaded bytes in the temporary file |
| RoundTrip.StudentRevealsUpload | src/gui/StudentWindow.cpp:220-234 | a student's `Decrypted` on a protected submission leaves exactly the uploaded bytes in the temporary file |
| RoundTrip.TeacherUnwrapsProtected | src/gui/TeacherWindow.cpp:264-275 | with no failing OpenSSL step, the teacher's download of a protected submission never stops at the master key or the unwrap |
| Text.FileName | src/tools/create_submission.cpp:66-67 | the part after the last '/', which has no '/' and ends the path |
| Text.BaseNameOfStorageName | src/gui/TeacherWindow.cpp:235 | `QFileInfo(stem.ext).baseName()` is the stem |
| Text.AtoiOfIntToString | src/gui/StudentWindow.cpp:162 | what `QString::number` prints, `std::atoi` reads back |
| Text.ReplaceAll | src/gui/StudentWindow.cpp:199 | same length, each occurrence of the character replaced and nothing else changed, so none is left |
| Storage.FileStore.Read | src/crypto/FileCrypto.cpp:107-113 | readable exactly when present and not unreadable, giving the stored bytes |
| Storage.FileStore.Write | src/crypto/FileCrypto.cpp:120-128 | opens exactly when writable, then stores the first min(length, limit) bytes and reports that count; otherwise nothing changes |
| Storage.FileStore.Remove | src/gui/TeacherWindow.cpp:288 | the path is gone and nothing else changes |
| Storage.FileStore.Copy | src/gui/StudentWindow.cpp:237 | refuses an existing target; copies readable bytes unchanged to a writable target when they fit, else changes nothing |
| Base.Resize | src/crypto/KeyProtect.cpp:62 | the buffer gets the new size, keeps its old bytes below it and is zero-filled beyond |

## Left out
- `onDownloadMySubmission` does not check that a row is current: with a selection but `currentRow()` at -1, `item(row, 2)` is a null dereference. The model's `selection` is the selected row's cells, so this crash is not modelled. The same holds for the other `item(...)` dereferences of `StudentWindow`.

- The widget code, the SQL text, message boxes, file permissions, launching a viewer (xdg-open, gedit, `QDesktopServices`) and `Logger` are not modelled. Each message box is an outcome constructor of the pipeline. Messages printed to standard error become outcome constructors of `create_submission`.
- `QProcess::execute` is the `execute` parameter of `Student.OnUpload`. The file dialog's answer and the selected rows are parameters of the window methods.
- The table loaders (`loadSubmissions`, `loadMySubmissions`) appear only as their grade/feedback cell. The other columns, the date formatting and the row loop are not modelled.
- `onAssignmentDoubleClicked` (a dialog), the teacher's grading and assignment management, and the plaintext assignment attachments (src/gui/TeacherWindow.cpp:457-483) are not modelled.
- `ConfigManager::storagePath`, `storageRoot` and `ensureStorageLayout` are declared but not defined in the repository's files.
  - `storagePath` is taken to join its argument under the storage root with '/'.
  - `ensureStorageLayout` is the `storageReady` flag of the host.
  - `sp_create_submission` is not part of this model beyond adding one row with the next id.
- AuthManager.UsersTable.Insert: the schema of the `users` table is not in the repository's files. The model assumes a UNIQUE constraint on `login`, so an insert of a login already present fails. That assumption also makes the row `AuthManager.Lookup` takes from `SELECT ... WHERE login = ? AND active = true` (which has no ORDER BY) the only matching row. Without the constraint the database's row order would be unspecified. `AuthManager.RegisterThenAuthenticate` rests on the same assumption.
- Student.TempPathOf: the source builds the name as `QString("%1_%2").arg(uuid).arg(originalName)`. The second `arg` rescans the uuid the first one inserted. A base name that holds a place marker such as `%1` therefore has the original name substituted inside it: for `x%1.dat` the source gives `x<originalName>_%2`, while the model gives `x%1_<originalName>`. `create_submission` only writes `<32 hex digits>.dat`, so this differs only for rows written some other way.
- Hex.HexToBytes: pairs are strict two-digit base16. Qt's `toUInt(&ok, 16)` may also accept a pair with white space or a sign, which the model rejects.
- `QJsonValue::toInt` and `toString` are modelled on a JSON value datatype: a number is used when whole and within `int`. Qt's handling of doubles is left out.
- Base64 and JSON text are abstract encode/decode pairs with their round-trip laws. The leniency of `QByteArray::fromBase64` on malformed text is not modelled beyond "some bytes".
- Integers are unbounded:
  - `std::atoi` overflow is undefined behaviour in the source and is not modelled;
  - `int` ids and counts are mathematical integers;
  - the `(int)` casts of buffer sizes passed to OpenSSL are not modelled.
- KeyProtect.DecryptWithAesGcm: an `iv` shorter than 12 bytes makes OpenSSL read past the buffer. The model gives the nonce as 12 bytes whatever `iv` holds and does not say which.
- `JoinPath` models `QDir::filePath` for a relative name only. The absolute-name and root-directory cases of Qt are not modelled.
- The student's paths are relative to the working directory. The model treats them as plain strings and does not resolve them against any directory.
- Two checks in the source cannot fail and are not separate outcomes:
  - the empty-master-key check in `create_submission` (lines 100-104), because a loaded configuration always holds a 32-byte key;
  - the "cipher data too short" check in `decryptBufferSecretbox`.
- The number of metadata bytes `create_submission` writes is not checked by the source. The model keeps the short write and nothing more.
- The results of `RAND_bytes` in `keyprotect` and of `PKCS5_PBKDF2_HMAC` are not checked by the source. Randomness is any bytes of the right length. PBKDF2 is a function parameter.
- The insides of Argon2id, XSalsa20-Poly1305, AES-256-GCM and PBKDF2-HMAC-SHA-256 are not modelled. Only the laws the pipelines rely on are stated.
- Concurrency and the process-wide singletons are not modelled. Each operation receives the objects it uses.
